/** What every run of Letterline commands keeps. */
module LetterlineRuns {
  import opened Options
  import opened Sorting
  import opened Letterline

  // ---------------------------------------------------------------- suppression

  ghost predicate Suppresses(s: Mail, k: Id, id: Id)
    requires id in s.people.subscribers
  {
    k in s.people.suppressions && s.people.suppressions[k].subscriberId == id
      && s.people.suppressions[k].occurredAt >= s.people.subscribers[id].consentAt
  }

  /** The stored flag is set exactly when some suppression is no older than the current consent. */
  ghost predicate FlagAgrees(s: Mail, id: Id)
    requires id in s.people.subscribers
  {
    s.people.subscribers[id].suppressed <==> exists k :: Suppresses(s, k, id)
  }

  /** The current consent receipt is the evidence for the consent clock. */
  ghost predicate ConsentBound(s: Mail, id: Id)
    requires id in s.people.subscribers
  {
    var sub := s.people.subscribers[id];
    && sub.receipt.Some? && sub.receipt.value.subscriberId == id && sub.receipt.value.address == sub.address
    && sub.receipt.value.consent.capturedAt == sub.consentAt && sub.receipt.value.audienceId in sub.audiences
    && sub.receipt.value.consent.granted && !sub.receipt.value.consent.purchasedList
  }

  ghost predicate Subscribers(s: Mail) {
    && (forall id :: id in s.people.subscribers ==> FlagAgrees(s, id) && ConsentBound(s, id))
    && (forall a, b | a in s.people.subscribers && b in s.people.subscribers ::
          s.people.subscribers[a].address == s.people.subscribers[b].address ==> a == b)
    && forall k :: k in s.people.suppressions ==> s.people.suppressions[k].subscriberId in s.people.subscribers
  }

  lemma LatestDecides(s: Mail, id: Id)
    requires id in s.people.subscribers
    ensures var latest := Latest(s.people.suppressions, id);
      (latest.Some? && s.people.suppressions[latest.value].occurredAt >= s.people.subscribers[id].consentAt) <==>
        exists k :: Suppresses(s, k, id)
  {
    var latest := Latest(s.people.suppressions, id);
    if k :| Suppresses(s, k, id) {
      assert Mentioned(s.people.suppressions, id);
      assert NotLater(s.people.suppressions, k, latest.value);
      assert Suppresses(s, latest.value, id);
    }
    if latest.Some? && s.people.suppressions[latest.value].occurredAt >= s.people.subscribers[id].consentAt {
      assert Suppresses(s, latest.value, id);
    }
  }

  lemma LatestIsUnique(suppressions: map<Id, Suppression>, subscriberId: Id, k: Id)
    requires IsLatest(suppressions, subscriberId, k)
    ensures Latest(suppressions, subscriberId) == Some(k)
  {
    assert Mentioned(suppressions, subscriberId);
    var other := Latest(suppressions, subscriberId).value;
    assert NotLater(suppressions, k, other) && NotLater(suppressions, other, k);
  }

  /** An opt-in writes one unsuppressed subscriber, whose consent does not move backwards. */
  ghost predicate OptsIn(s: Mail, n: Mail, id: Id) {
    && id in n.people.subscribers && n.people.subscribers == s.people.subscribers[id := n.people.subscribers[id]]
    && n.people.suppressions == s.people.suppressions
    && !n.people.subscribers[id].suppressed && ConsentBound(n, id)
    && if id in s.people.subscribers then
         !s.people.subscribers[id].suppressed
           && s.people.subscribers[id].consentAt <= n.people.subscribers[id].consentAt
         && s.people.subscribers[id].address == n.people.subscribers[id].address
       else forall other :: other in s.people.subscribers ==>
         s.people.subscribers[other].address != n.people.subscribers[id].address
  }

  lemma EnrolOptsIn(s: Mail, c: Command)
    requires c.OptIn? && c.consent.granted && !c.consent.purchasedList && Enrol(s, c).Done?
    requires forall other :: other in s.people.subscribers ==> s.people.subscribers[other].address != c.address
    ensures OptsIn(s, Enrol(s, c).mail, c.subscriberId)
  {
  }

  lemma RenewOptsIn(s: Mail, c: Command, id: Id)
    requires c.OptIn? && c.consent.granted && !c.consent.purchasedList && IsAt(s, id, c.address)
    requires Renew(s, c, id).Done?
    ensures OptsIn(s, Renew(s, c, id).mail, id)
  {
  }

  lemma OptedInKeepsSubscribers(s: Mail, n: Mail, id: Id)
    requires Subscribers(s) && OptsIn(s, n, id)
    ensures Subscribers(n)
  {
    forall x | x in n.people.subscribers ensures FlagAgrees(n, x) && ConsentBound(n, x) {
      if x != id {
        assert FlagAgrees(s, x) && ConsentBound(s, x);
        forall k ensures Suppresses(n, k, x) <==> Suppresses(s, k, x) { }
      } else {
        assert id in s.people.subscribers ==> FlagAgrees(s, id);
        forall k ensures !Suppresses(n, k, id) {
          assert id in s.people.subscribers ==> !Suppresses(s, k, id);
        }
      }
    }
  }

  lemma EnrolKeepsSubscribers(s: Mail, c: Command)
    requires Subscribers(s) && c.OptIn? && c.consent.granted && !c.consent.purchasedList
    requires Existing(s, c.address).None? && Enrol(s, c).Done?
    ensures Subscribers(Enrol(s, c).mail)
  {
    assert forall other :: !IsAt(s, other, c.address);
    assert forall other :: other in s.people.subscribers ==> IsAt(s, other, s.people.subscribers[other].address);
    EnrolOptsIn(s, c);
    OptedInKeepsSubscribers(s, Enrol(s, c).mail, c.subscriberId);
  }

  lemma RenewKeepsSubscribers(s: Mail, c: Command, id: Id)
    requires Subscribers(s) && c.OptIn? && c.consent.granted && !c.consent.purchasedList
    requires IsAt(s, id, c.address) && Renew(s, c, id).Done?
    ensures Subscribers(Renew(s, c, id).mail)
  {
    RenewOptsIn(s, c, id);
    OptedInKeepsSubscribers(s, Renew(s, c, id).mail, id);
  }

  lemma OptInKeepsSubscribers(s: Mail, now: int, c: Command)
    requires Subscribers(s) && c.OptIn? && StepOptIn(s, now, c).Done?
    ensures Subscribers(StepOptIn(s, now, c).mail)
  {
    match Existing(s, c.address)
    case None => EnrolKeepsSubscribers(s, c);
    case Some(id) => RenewKeepsSubscribers(s, c, id);
  }

  lemma ReactivateKeepsSubscribers(s: Mail, now: int, c: Command)
    requires Subscribers(s) && c.Reactivate? && Step(s, now, c).Done?
    ensures Subscribers(After(s, now, c))
  {
    var n := After(s, now, c);
    LatestDecides(n, c.subscriberId);
    forall id | id in n.people.subscribers ensures FlagAgrees(n, id) && ConsentBound(n, id) {
      assert FlagAgrees(s, id) && ConsentBound(s, id);
      if id != c.subscriberId {
        forall k ensures Suppresses(n, k, id) <==> Suppresses(s, k, id) { }
      }
    }
  }

  ghost predicate Adds(s: Mail, n: Mail, id: Id, k: Id) {
    && id in s.people.subscribers && k !in s.people.suppressions && k in n.people.suppressions
    && n.people.suppressions == s.people.suppressions[k := n.people.suppressions[k]]
    && n.people.suppressions[k].subscriberId == id
    && n.people.suppressions[k].occurredAt >= s.people.subscribers[id].consentAt
    && n.people.subscribers == s.people.subscribers[id := s.people.subscribers[id].(suppressed := true,
         version := s.people.subscribers[id].version + 1)]
  }

  lemma AddedKeepsSubscribers(s: Mail, n: Mail, id: Id, k: Id)
    requires Subscribers(s) && Adds(s, n, id, k)
    ensures Subscribers(n)
  {
    assert Suppresses(n, k, id);
    forall x | x in n.people.subscribers ensures FlagAgrees(n, x) && ConsentBound(n, x) {
      assert FlagAgrees(s, x) && ConsentBound(s, x);
      if x != id {
        forall j ensures Suppresses(n, j, x) <==> Suppresses(s, j, x) { }
      }
    }
  }

  /** A repeated identical suppression stores nothing new, and needs to change nothing: the subscriber is suppressed
      already. */
  lemma ApplyKeepsSubscribers(s: Mail, subscriberId: Id, reason: Reason, occurredAt: int, evidence: string,
      source: Option<Id>, suppressionId: Id)
    requires Subscribers(s) && subscriberId in s.people.subscribers
    ensures var out := ApplySuppression(s, subscriberId, reason, occurredAt, evidence, source, suppressionId);
      out.Done? ==>
        && Subscribers(out.mail) && subscriberId in out.mail.people.subscribers
        && out.mail.people.subscribers[subscriberId].suppressed
  {
    var out := ApplySuppression(s, subscriberId, reason, occurredAt, evidence, source, suppressionId);
    if out.Done? {
      var payload := Suppression(subscriberId, s.people.subscribers[subscriberId].address, reason, occurredAt,
        evidence, source);
      if k :| k in s.people.suppressions && s.people.suppressions[k] == payload {
        assert FlagAgrees(s, subscriberId) && Suppresses(s, k, subscriberId);
      } else {
        AddedKeepsSubscribers(s, out.mail, subscriberId, suppressionId);
      }
    }
  }

  lemma SameSubscribers(s: Mail, n: Mail)
    requires Subscribers(s) && n.people.subscribers == s.people.subscribers
    requires n.people.suppressions == s.people.suppressions
    ensures Subscribers(n)
  {
    forall id | id in n.people.subscribers ensures FlagAgrees(n, id) && ConsentBound(n, id) {
      assert FlagAgrees(s, id) && ConsentBound(s, id);
      forall k ensures Suppresses(n, k, id) <==> Suppresses(s, k, id) { }
    }
  }

  lemma IngestKeepsSubscribers(s: Mail, now: int, c: Command)
    requires Subscribers(s) && c.Ingest? && Step(s, now, c).Done?
    ensures Subscribers(After(s, now, c))
  {
    var e := c.event;
    var noted := s.(people := s.people.(events := s.people.events[c.eventId := e]));
    SameSubscribers(s, noted);
    if SuppressiveReason(e.eventType).Some? {
      ApplyKeepsSubscribers(noted, e.subscriberId, SuppressiveReason(e.eventType).value, e.occurredAt, e.evidence,
        Some(c.receiptId), c.suppressionId);
    }
  }

  lemma StepKeepsSubscribers(s: Mail, now: int, c: Command)
    requires Subscribers(s)
    ensures Subscribers(After(s, now, c))
  {
    if Step(s, now, c).Done? {
      match c
      case OptIn(_, _, _, _, _) => OptInKeepsSubscribers(s, now, c);
      case Reactivate(_, _, _, _) => ReactivateKeepsSubscribers(s, now, c);
      case Suppress(_, _, _, _, _) =>
        ApplyKeepsSubscribers(s, c.subscriberId, c.reason, c.occurredAt, c.evidence, None, c.suppressionId);
      case Ingest(_, _, _, _) => IngestKeepsSubscribers(s, now, c);
      case _ => LeavesSubscribers(s, now, c); SameSubscribers(s, After(s, now, c));
    }
  }

  lemma DraftLeavesPeople(s: Mail, c: Command)
    requires c.DraftVersion? && StepDraft(s, c).Done?
    ensures StepDraft(s, c).mail.people == s.people
  {
  }

  lemma ReviewLeavesPeople(s: Mail, c: Command)
    requires c.ReviewVersion? && StepReview(s, c).Done?
    ensures StepReview(s, c).mail.people == s.people
  {
  }

  lemma ApproveLeavesPeople(s: Mail, c: Command)
    requires c.Approve? && StepApprove(s, c).Done?
    ensures StepApprove(s, c).mail.people == s.people
  {
  }

  lemma ScheduleLeavesPeople(s: Mail, now: int, c: Command)
    requires c.ScheduleCampaign? && StepSchedule(s, now, c).Done?
    ensures StepSchedule(s, now, c).mail.people == s.people
  {
  }

  lemma PlanLeavesPeople(s: Mail, c: Command)
    requires c.CreatePlan? && StepPlan(s, c).Done?
    ensures StepPlan(s, c).mail.people == s.people
  {
  }

  lemma LeavesSubscribers(s: Mail, now: int, c: Command)
    requires c.CreateAudience? || OnCampaign(c)
    ensures After(s, now, c).people.subscribers == s.people.subscribers
    ensures After(s, now, c).people.suppressions == s.people.suppressions
  {
    if Step(s, now, c).Done? {
      match c
      case DraftVersion(_, _, _, _) => DraftLeavesPeople(s, c);
      case ReviewVersion(_, _, _) => ReviewLeavesPeople(s, c);
      case Approve(_, _, _) => ApproveLeavesPeople(s, c);
      case ScheduleCampaign(_, _, _) => ScheduleLeavesPeople(s, now, c);
      case CreatePlan(_, _, _) => PlanLeavesPeople(s, c);
      case _ =>
    }
  }

  // ------------------------------------------------------------------ campaigns

  ghost predicate ReviewOk(s: Mail, reviewId: Id, versionId: Id, hash: ContentHash) {
    && versionId in s.press.versions && s.press.versions[versionId].hash == hash
    && s.press.versions[versionId].campaignId == hash.campaignId
    && reviewId in s.press.reviews && s.press.reviews[reviewId].versionId == versionId
    && s.press.reviews[reviewId].hash == hash && s.press.reviews[reviewId].positive
  }

  ghost predicate ApprovalOk(s: Mail, approvalId: Id, versionId: Id, hash: ContentHash) {
    && approvalId in s.press.approvals && s.press.approvals[approvalId].versionId == versionId
    && s.press.approvals[approvalId].hash == hash
    && ReviewOk(s, s.press.approvals[approvalId].reviewId, versionId, hash)
  }

  ghost predicate ScheduleOk(s: Mail, scheduleId: Id, versionId: Id, hash: ContentHash) {
    && scheduleId in s.press.schedules && s.press.schedules[scheduleId].versionId == versionId
    && s.press.schedules[scheduleId].hash == hash
    && ApprovalOk(s, s.press.schedules[scheduleId].approvalId, versionId, hash)
  }

  ghost predicate PlanOk(s: Mail, planId: Id) {
    && planId in s.press.plans && s.press.plans[planId].campaignId == s.press.plans[planId].hash.campaignId
    && ScheduleOk(s, s.press.plans[planId].scheduleId, s.press.plans[planId].versionId, s.press.plans[planId].hash)
  }

  predicate Released(state: CampaignState) {
    state.Approved? || state.Scheduled? || state.DispatchPlanned?
  }

  ghost predicate CampaignOk(s: Mail, id: Id)
    requires id in s.press.campaigns
  {
    var k := s.press.campaigns[id];
    && (k.state.Reviewed? ==>
         k.versionId.Some? && k.hash.Some? && k.reviewId.Some?
           && ReviewOk(s, k.reviewId.value, k.versionId.value, k.hash.value))
    && (Released(k.state) ==>
         k.versionId.Some? && k.hash.Some? && k.approvalId.Some?
           && ApprovalOk(s, k.approvalId.value, k.versionId.value, k.hash.value))
    && (k.state.Scheduled? || k.state.DispatchPlanned? ==>
         k.scheduleId.Some? && ScheduleOk(s, k.scheduleId.value, k.versionId.value, k.hash.value))
    && (k.hash.Some? ==> k.hash.value.campaignId == id)
  }

  ghost predicate Campaigns(s: Mail) {
    && (forall id :: id in s.press.campaigns ==> CampaignOk(s, id))
    && forall p :: p in s.press.plans ==> PlanOk(s, p)
  }

  /** Records of the chain are only ever added. */
  ghost predicate Grows(s: Mail, n: Mail) {
    && (forall k :: k in s.press.versions ==> k in n.press.versions && n.press.versions[k] == s.press.versions[k])
    && (forall k :: k in s.press.reviews ==> k in n.press.reviews && n.press.reviews[k] == s.press.reviews[k])
    && (forall k :: k in s.press.approvals ==> k in n.press.approvals && n.press.approvals[k] == s.press.approvals[k])
    && (forall k :: k in s.press.schedules ==> k in n.press.schedules && n.press.schedules[k] == s.press.schedules[k])
    && forall k :: k in s.press.plans ==> k in n.press.plans && n.press.plans[k] == s.press.plans[k]
  }

  lemma GrowsKeepsCampaign(s: Mail, n: Mail, id: Id)
    requires Grows(s, n) && id in s.press.campaigns && id in n.press.campaigns
    requires n.press.campaigns[id] == s.press.campaigns[id] && CampaignOk(s, id)
    ensures CampaignOk(n, id)
  {
  }

  lemma GrowsKeepsPlan(s: Mail, n: Mail, p: Id)
    requires Grows(s, n) && p in s.press.plans && PlanOk(s, p)
    ensures PlanOk(n, p)
  {
  }

  lemma ApplyLeavesPress(s: Mail, subscriberId: Id, reason: Reason, occurredAt: int, evidence: string,
      source: Option<Id>, suppressionId: Id)
    requires subscriberId in s.people.subscribers
    ensures var out := ApplySuppression(s, subscriberId, reason, occurredAt, evidence, source, suppressionId);
      out.Done? ==> out.mail.press == s.press
  {
  }

  lemma IngestLeavesPress(s: Mail, now: int, c: Command)
    requires c.Ingest? && StepIngest(s, now, c).Done?
    ensures StepIngest(s, now, c).mail.press == s.press
  {
  }

  lemma ReactivateLeavesPress(s: Mail, now: int, c: Command)
    requires c.Reactivate? && StepReactivate(s, now, c).Done?
    ensures StepReactivate(s, now, c).mail.press == s.press
  {
  }

  lemma OffCampaignLeavesPress(s: Mail, now: int, c: Command)
    requires !OnCampaign(c) && Step(s, now, c).Done?
    ensures After(s, now, c).press == s.press
  {
    match c
    case OptIn(_, _, _, _, _) =>
    case Reactivate(_, _, _, _) => ReactivateLeavesPress(s, now, c);
    case Ingest(_, _, _, _) => IngestLeavesPress(s, now, c);
    case Suppress(_, _, _, _, _) =>
      ApplyLeavesPress(s, c.subscriberId, c.reason, c.occurredAt, c.evidence, None, c.suppressionId);
    case CreateAudience(_, _) =>
  }

  lemma DraftGrows(s: Mail, now: int, c: Command)
    requires (c.DraftVersion? || c.CreateCampaign?) && Step(s, now, c).Done?
    ensures Grows(s, After(s, now, c))
  {
  }

  lemma ReleaseGrows(s: Mail, now: int, c: Command)
    requires (c.ReviewVersion? || c.Approve? || c.ScheduleCampaign?) && Step(s, now, c).Done?
    ensures Grows(s, After(s, now, c))
  {
  }

  lemma PlanGrows(s: Mail, now: int, c: Command)
    requires c.CreatePlan? && Step(s, now, c).Done?
    ensures Grows(s, After(s, now, c))
  {
  }

  lemma StepGrows(s: Mail, now: int, c: Command)
    ensures Grows(s, After(s, now, c))
  {
    if Step(s, now, c).Done? {
      if !OnCampaign(c) { OffCampaignLeavesPress(s, now, c); }
      else if c.CreatePlan? { PlanGrows(s, now, c); }
      else if c.DraftVersion? || c.CreateCampaign? { DraftGrows(s, now, c); }
      else { ReleaseGrows(s, now, c); }
    }
  }

  /** All but campaign `id` and plan `p` carry over. */
  lemma OthersCarryOver(s: Mail, n: Mail, id: Id, p: Id)
    requires Campaigns(s) && Grows(s, n)
    requires forall x :: x in n.press.campaigns && x != id ==>
      x in s.press.campaigns && n.press.campaigns[x] == s.press.campaigns[x]
    requires forall x :: x in n.press.plans && x != p ==> x in s.press.plans
    requires (id in n.press.campaigns ==> CampaignOk(n, id)) && (p in n.press.plans ==> PlanOk(n, p))
    ensures Campaigns(n)
  {
    forall x | x in n.press.campaigns ensures CampaignOk(n, x) {
      if x != id { GrowsKeepsCampaign(s, n, x); }
    }
    forall x | x in n.press.plans ensures PlanOk(n, x) {
      if x != p { GrowsKeepsPlan(s, n, x); }
    }
  }

  function CampaignOf(c: Command): Id
    requires OnCampaign(c)
  {
    match c
    case CreateCampaign(id, _) => id
    case DraftVersion(id, _, _, _) => id
    case ReviewVersion(b, _, _) => b.campaignId
    case Approve(b, _, _) => b.campaignId
    case ScheduleCampaign(b, _, _) => b.campaignId
    case CreatePlan(b, _, _) => b.campaignId
  }

  predicate OnCampaign(c: Command) {
    c.CreateCampaign? || c.DraftVersion? || c.ReviewVersion? || c.Approve? || c.ScheduleCampaign? || c.CreatePlan?
  }

  lemma TouchedCampaign(s: Mail, now: int, c: Command)
    requires Campaigns(s) && OnCampaign(c) && Step(s, now, c).Done?
    ensures var n := After(s, now, c); CampaignOf(c) in n.press.campaigns && CampaignOk(n, CampaignOf(c))
  {
    var id := CampaignOf(c);
    if id in s.press.campaigns { assert CampaignOk(s, id); }
  }

  lemma TouchedOnly(s: Mail, now: int, c: Command)
    requires OnCampaign(c) && Step(s, now, c).Done?
    ensures var n := After(s, now, c);
      && (forall x :: x in n.press.campaigns && x != CampaignOf(c) ==>
           x in s.press.campaigns && n.press.campaigns[x] == s.press.campaigns[x])
      && (!c.CreatePlan? ==> n.press.plans == s.press.plans)
  {
  }

  lemma NewPlanOk(s: Mail, now: int, c: Command)
    requires Campaigns(s) && c.CreatePlan? && Step(s, now, c).Done?
    ensures var n := After(s, now, c);
      PlanOk(n, c.planId) && forall x :: x in n.press.plans && x != c.planId ==> x in s.press.plans
  {
    assert CampaignOk(s, c.basis.campaignId);
  }

  lemma StepKeepsCampaigns(s: Mail, now: int, c: Command)
    requires Campaigns(s)
    ensures Campaigns(After(s, now, c))
  {
    var n := After(s, now, c);
    if Step(s, now, c).Done? {
      StepGrows(s, now, c);
      if c.CreatePlan? {
        TouchedCampaign(s, now, c);
        TouchedOnly(s, now, c);
        NewPlanOk(s, now, c);
        OthersCarryOver(s, n, CampaignOf(c), c.planId);
      } else if OnCampaign(c) {
        TouchedCampaign(s, now, c);
        TouchedOnly(s, now, c);
        PlansCarryOver(s, n, CampaignOf(c));
      } else {
        OffCampaignLeavesPress(s, now, c);
        ChainCarriesOver(s, n);
      }
    }
  }

  lemma ChainCarriesOver(s: Mail, n: Mail)
    requires Campaigns(s) && n.press == s.press
    ensures Campaigns(n)
  {
    forall x | x in n.press.campaigns ensures CampaignOk(n, x) { assert CampaignOk(s, x); }
    forall p | p in n.press.plans ensures PlanOk(n, p) { assert PlanOk(s, p); }
  }

  lemma PlansCarryOver(s: Mail, n: Mail, id: Id)
    requires Campaigns(s) && Grows(s, n) && n.press.plans == s.press.plans
    requires forall x :: x in n.press.campaigns && x != id ==>
      x in s.press.campaigns && n.press.campaigns[x] == s.press.campaigns[x]
    requires id in n.press.campaigns ==> CampaignOk(n, id)
    ensures Campaigns(n)
  {
    forall p | p in n.press.plans ensures PlanOk(n, p) { GrowsKeepsPlan(s, n, p); }
    forall x | x in n.press.campaigns ensures CampaignOk(n, x) {
      if x != id { GrowsKeepsCampaign(s, n, x); }
    }
  }

  // ----------------------------------------------------------------- whole runs

  ghost predicate Inv(s: Mail) {
    Subscribers(s) && Campaigns(s)
  }

  lemma {:induction false} RunThen(s: Mail, calls: seq<Call>, last: Call)
    ensures Run(s, calls + [last]) == After(Run(s, calls), last.now, last.command)
    decreases |calls|
  {
    if calls == [] {
      assert calls + [last] == [last] && [last][1..] == [];
    } else {
      assert (calls + [last])[1..] == calls[1..] + [last];
      RunThen(After(s, calls[0].now, calls[0].command), calls[1..], last);
    }
  }

  lemma {:induction false} RunsKeepInv(s: Mail, calls: seq<Call>)
    requires Inv(s)
    ensures Inv(Run(s, calls))
    decreases |calls|
  {
    if calls != [] {
      StepKeepsSubscribers(s, calls[0].now, calls[0].command);
      StepKeepsCampaigns(s, calls[0].now, calls[0].command);
      RunsKeepInv(After(s, calls[0].now, calls[0].command), calls[1..]);
    }
  }

  lemma {:induction false} RunsGrow(s: Mail, calls: seq<Call>)
    ensures Grows(s, Run(s, calls))
    decreases |calls|
  {
    if calls != [] {
      StepGrows(s, calls[0].now, calls[0].command);
      RunsGrow(After(s, calls[0].now, calls[0].command), calls[1..]);
    }
  }

  /** Main result: in every reachable state the stored flag says exactly that some suppression is no older than the
      current consent, so the two tests of `effectivelySuppressed` always agree. */
  lemma BothSuppressionTestsAgree(calls: seq<Call>, id: Id)
    requires id in Run(EMPTY, calls).people.subscribers
    ensures var s := Run(EMPTY, calls);
      var latest := Latest(s.people.suppressions, id);
      && (s.people.subscribers[id].suppressed <==> exists k :: Suppresses(s, k, id))
      && (s.people.subscribers[id].suppressed <==>
           latest.Some? && s.people.suppressions[latest.value].occurredAt >= s.people.subscribers[id].consentAt)
      && (EffectivelySuppressed(s, id) <==> s.people.subscribers[id].suppressed)
  {
    RunsKeepInv(EMPTY, calls);
    var s := Run(EMPTY, calls);
    assert FlagAgrees(s, id);
    LatestDecides(s, id);
  }

  lemma RecipientsAreReceiving(s: Mail, audienceId: Id, r: Recipient)
    requires r in Recipients(s, audienceId)
    ensures MayReceive(s, r.subscriberId, audienceId) && r == RecipientFor(s, r.subscriberId)
  {
    SameElements(Recipients(s, audienceId), Unsorted(s, audienceId));
    var ids := Ascending(ReceivingIds(s, audienceId));
    var i :| 0 <= i < |ids| && Unsorted(s, audienceId)[i] == r;
    assert ids[i] in ids;
  }

  lemma ReceivingAreRecipients(s: Mail, audienceId: Id, id: Id)
    requires MayReceive(s, id, audienceId)
    ensures RecipientFor(s, id) in Recipients(s, audienceId)
  {
    SameElements(Recipients(s, audienceId), Unsorted(s, audienceId));
    var ids := Ascending(ReceivingIds(s, audienceId));
    assert id in ids;
    var i :| 0 <= i < |ids| && ids[i] == id;
    assert Unsorted(s, audienceId)[i] == RecipientFor(s, id);
  }

  /** A recipient frozen into a plan consented, in that audience or another, after everything held against them. */
  ghost predicate ConsentsStrictlyAfter(s: Mail, r: Recipient) {
    && r.subscriberId in s.people.subscribers && r.receipt.subscriberId == r.subscriberId
    && r.receipt.address == r.address
    && r.receipt.consent.granted && r.receipt.consent.capturedAt == s.people.subscribers[r.subscriberId].consentAt
    && forall k :: k in s.people.suppressions && s.people.suppressions[k].subscriberId == r.subscriberId ==>
         s.people.suppressions[k].occurredAt < r.receipt.consent.capturedAt
  }

  /** Main result: a new plan's recipients are exactly the audience's members whose consent is strictly newer than
      all of their suppressions, in a fixed order. */
  lemma PlanRecipientsHaveNewerConsent(calls: seq<Call>, now: int, c: Command)
    requires c.CreatePlan? && Step(Run(EMPTY, calls), now, c).Done?
    ensures var s := Run(EMPTY, calls);
      && c.planId in After(s, now, c).press.plans
      && var plan := After(s, now, c).press.plans[c.planId];
      && plan.recipients != [] && Sorted(plan.recipients, Before)
      && (forall r :: r in plan.recipients ==>
           ConsentsStrictlyAfter(s, r) && plan.audienceId in s.people.subscribers[r.subscriberId].audiences)
      && forall id | id in s.people.subscribers && !s.people.subscribers[id].suppressed ::
           plan.audienceId in s.people.subscribers[id].audiences ==> IsRecipient(plan, id)
  {
    RunsKeepInv(EMPTY, calls);
    var s := Run(EMPTY, calls);
    var plan := After(s, now, c).press.plans[c.planId];
    assert plan.recipients == Recipients(s, plan.audienceId);
    SortSorts(Unsorted(s, plan.audienceId), Before);
    forall r | r in plan.recipients
      ensures ConsentsStrictlyAfter(s, r) && plan.audienceId in s.people.subscribers[r.subscriberId].audiences {
      RecipientsAreReceiving(s, plan.audienceId, r);
      NotSuppressedIsNewer(s, r.subscriberId);
    }
    forall id | id in s.people.subscribers && plan.audienceId in s.people.subscribers[id].audiences
      && !s.people.subscribers[id].suppressed
      ensures IsRecipient(plan, id) {
      LatestDecides(s, id);
      assert FlagAgrees(s, id) && ConsentBound(s, id);
      ReceivingAreRecipients(s, plan.audienceId, id);
      assert RecipientFor(s, id) in plan.recipients && RecipientFor(s, id).subscriberId == id;
    }
  }

  lemma NotSuppressedIsNewer(s: Mail, id: Id)
    requires Subscribers(s) && id in s.people.subscribers && !s.people.subscribers[id].suppressed
    ensures s.people.subscribers[id].receipt.Some? && ConsentsStrictlyAfter(s, RecipientFor(s, id))
  {
    assert FlagAgrees(s, id) && ConsentBound(s, id);
    forall k | k in s.people.suppressions && s.people.suppressions[k].subscriberId == id
      ensures s.people.suppressions[k].occurredAt < s.people.subscribers[id].consentAt {
      assert !Suppresses(s, k, id);
    }
  }

  /** Main result: only reviewed content is released. A campaign that is approved, scheduled or planned rests on an
      approval and a positive review of exactly its current version and content. */
  lemma OnlyReviewedContentIsReleased(calls: seq<Call>, id: Id)
    requires id in Run(EMPTY, calls).press.campaigns && Released(Run(EMPTY, calls).press.campaigns[id].state)
    ensures var s := Run(EMPTY, calls);
      var k := s.press.campaigns[id];
      && k.versionId.Some? && k.hash.Some? && k.approvalId.Some? && k.hash.value.campaignId == id
      && ApprovalOk(s, k.approvalId.value, k.versionId.value, k.hash.value)
      && (!k.state.Approved? ==>
           k.scheduleId.Some? && ScheduleOk(s, k.scheduleId.value, k.versionId.value, k.hash.value))
  {
    RunsKeepInv(EMPTY, calls);
    assert CampaignOk(Run(EMPTY, calls), id);
  }

  /** Main result: every plan ever made keeps its chain of schedule, approval and positive review, however often the
      campaign is redrafted afterwards. */
  lemma PlansKeepTheirChain(calls: seq<Call>, later: seq<Call>, p: Id)
    requires p in Run(EMPTY, calls).press.plans
    ensures var s, n := Run(EMPTY, calls), Run(Run(EMPTY, calls), later);
      p in n.press.plans && n.press.plans[p] == s.press.plans[p] && PlanOk(n, p)
  {
    RunsKeepInv(EMPTY, calls);
    RunsGrow(Run(EMPTY, calls), later);
    RunsKeepInv(Run(EMPTY, calls), later);
  }

  // ------------------------------------------------------------- consent clocks

  /** A subscriber keeps the address, leaves no audience, and consents no earlier than before. */
  ghost predicate NoEarlier(s: Subscriber, n: Subscriber) {
    n.address == s.address && s.audiences <= n.audiences && s.consentAt <= n.consentAt
  }

  /** Nobody and no suppression is forgotten. */
  ghost predicate Remembers(s: Mail, n: Mail) {
    && (forall id :: id in s.people.subscribers ==>
         id in n.people.subscribers && NoEarlier(s.people.subscribers[id], n.people.subscribers[id]))
    && forall k :: k in s.people.suppressions ==>
         k in n.people.suppressions && n.people.suppressions[k] == s.people.suppressions[k]
  }

  lemma EnrolRemembers(s: Mail, c: Command)
    requires c.OptIn? && Enrol(s, c).Done?
    ensures Remembers(s, Enrol(s, c).mail)
  {
  }

  lemma RenewRemembers(s: Mail, c: Command, id: Id)
    requires c.OptIn? && id in s.people.subscribers && Renew(s, c, id).Done?
    ensures Remembers(s, Renew(s, c, id).mail)
  {
  }

  lemma OptInRemembers(s: Mail, now: int, c: Command)
    requires c.OptIn? && StepOptIn(s, now, c).Done?
    ensures Remembers(s, StepOptIn(s, now, c).mail)
  {
    match Existing(s, c.address)
    case None => EnrolRemembers(s, c);
    case Some(id) => RenewRemembers(s, c, id);
  }

  /** The latest suppression is no older than the consent it revoked, and the new consent is newer than that. */
  lemma ReactivationIsLater(s: Mail, now: int, c: Command)
    requires Subscribers(s) && c.Reactivate? && StepReactivate(s, now, c).Done?
    ensures c.subscriberId in s.people.subscribers
    ensures s.people.subscribers[c.subscriberId].consentAt < c.consent.capturedAt
  {
    assert FlagAgrees(s, c.subscriberId);
    LatestDecides(s, c.subscriberId);
  }

  lemma ReactivateRemembers(s: Mail, now: int, c: Command)
    requires Subscribers(s) && c.Reactivate? && StepReactivate(s, now, c).Done?
    ensures Remembers(s, StepReactivate(s, now, c).mail)
  {
    ReactivationIsLater(s, now, c);
  }

  lemma ApplyRemembers(s: Mail, id: Id, reason: Reason, occurredAt: int, evidence: string, source: Option<Id>,
      suppressionId: Id)
    requires id in s.people.subscribers
    requires ApplySuppression(s, id, reason, occurredAt, evidence, source, suppressionId).Done?
    ensures Remembers(s, ApplySuppression(s, id, reason, occurredAt, evidence, source, suppressionId).mail)
  {
  }

  lemma IngestRemembers(s: Mail, now: int, c: Command)
    requires c.Ingest? && StepIngest(s, now, c).Done?
    ensures Remembers(s, StepIngest(s, now, c).mail)
  {
    var e, events := c.event, s.people.events[c.eventId := c.event];
    if c.eventId !in s.people.events && SuppressiveReason(e.eventType).Some? {
      ApplyRemembers(s.(people := s.people.(events := events)), e.subscriberId, SuppressiveReason(e.eventType).value,
                     e.occurredAt, e.evidence, Some(c.receiptId), c.suppressionId);
    }
  }

  lemma StepRemembers(s: Mail, now: int, c: Command)
    requires Subscribers(s)
    ensures Remembers(s, After(s, now, c))
  {
    if Step(s, now, c).Done? {
      match c
      case OptIn(_, _, _, _, _) => OptInRemembers(s, now, c);
      case Reactivate(_, _, _, _) => ReactivateRemembers(s, now, c);
      case Suppress(id, reason, occurredAt, evidence, k) =>
        ApplyRemembers(s, id, reason, occurredAt, evidence, None, k);
      case Ingest(_, _, _, _) => IngestRemembers(s, now, c);
      case _ => LeavesSubscribers(s, now, c);
    }
  }

  /** Main result: over any run a consent clock never moves backwards, although a reactivation does not compare with
      it: it compares with the latest suppression, and that is never older than the consent it revoked. */
  lemma {:induction false} ConsentClocksRise(s: Mail, calls: seq<Call>)
    requires Subscribers(s)
    ensures Remembers(s, Run(s, calls))
    decreases |calls|
  {
    if calls != [] {
      var n := After(s, calls[0].now, calls[0].command);
      StepRemembers(s, calls[0].now, calls[0].command);
      StepKeepsSubscribers(s, calls[0].now, calls[0].command);
      ConsentClocksRise(n, calls[1..]);
      RemembersOn(s, n, Run(n, calls[1..]));
    }
  }

  lemma RemembersOn(s: Mail, m: Mail, n: Mail)
    requires Remembers(s, m) && Remembers(m, n)
    ensures Remembers(s, n)
  {
    forall id | id in s.people.subscribers
      ensures id in n.people.subscribers && NoEarlier(s.people.subscribers[id], n.people.subscribers[id]) {
      assert NoEarlier(s.people.subscribers[id], m.people.subscribers[id]);
    }
  }

  // ------------------------------------------------------------- reactivation

  /** A reactivation's consent is strictly newer than every suppression of the subscriber, not only the latest. */
  lemma ReactivationIsNewest(s: Mail, now: int, c: Command, k: Id)
    requires c.Reactivate? && Step(s, now, c).Done? && k in s.people.suppressions
    requires s.people.suppressions[k].subscriberId == c.subscriberId
    ensures s.people.suppressions[k].occurredAt < c.consent.capturedAt
  {
    var latest := Latest(s.people.suppressions, c.subscriberId).value;
    assert NotLater(s.people.suppressions, k, latest);
  }

  /** The state after a manual suppression at `t`, later than all others of the subscriber. */
  ghost predicate ManuallySuppressed(s: Mail, n: Mail, id: Id, t: int, k: Id) {
    && id in n.people.subscribers && n.people.subscribers[id].suppressed && k in n.people.suppressions
    && n.people.suppressions[k].subscriberId == id && n.people.suppressions[k].reason == Manual
    && n.people.suppressions[k].occurredAt == t
    && n.people.suppressions == s.people.suppressions[k := n.people.suppressions[k]]
    && n.people.audiences == s.people.audiences && n.people.consents == s.people.consents
  }

  lemma ManualSuppression(s: Mail, now: int, id: Id, t: int, evidence: string, k: Id)
    requires Subscribers(s) && id in s.people.subscribers && s.people.subscribers[id].suppressed
    requires forall j :: j in s.people.suppressions && s.people.suppressions[j].subscriberId == id ==>
      s.people.suppressions[j].occurredAt < t
    requires t <= now + CLOCK_SKEW && !Full(s.people.suppressions) && k !in s.people.suppressions
    ensures ManuallySuppressed(s, After(s, now, Suppress(id, Manual, t, evidence, k)), id, t, k)
  {
    assert FlagAgrees(s, id);
    var j :| Suppresses(s, j, id);
    assert s.people.suppressions[j].occurredAt < t;
  }

  lemma ManualIsLatest(s: Mail, n: Mail, id: Id, t: int, k: Id)
    requires ManuallySuppressed(s, n, id, t, k)
    requires forall j :: j in s.people.suppressions && s.people.suppressions[j].subscriberId == id ==>
      s.people.suppressions[j].occurredAt < t
    ensures Latest(n.people.suppressions, id) == Some(k)
  {
    assert IsLatest(n.people.suppressions, id, k);
    LatestIsUnique(n.people.suppressions, id, k);
  }

  lemma AfterReversible(n: Mail, now: int, c: Command, k: Id)
    requires c.Reactivate? && c.subscriberId in n.people.subscribers && n.people.subscribers[c.subscriberId].suppressed
    requires c.audienceId in n.people.audiences
    requires Latest(n.people.suppressions, c.subscriberId) == Some(k) && Reversible(n.people.suppressions[k].reason)
    requires ConsentOk(c.consent, n.people.audiences[c.audienceId], now, true)
    requires c.consent.capturedAt > n.people.suppressions[k].occurredAt
    requires !Full(n.people.suppressions) && !Full(n.people.consents) && c.receiptId !in n.people.consents
    ensures Step(n, now, c).Done? && c.subscriberId in After(n, now, c).people.subscribers
    ensures !After(n, now, c).people.subscribers[c.subscriberId].suppressed
  {
  }

  /** Main result: no suppression is permanent, not even a hard bounce, a complaint or a legal block. From every
      sound state a later manual suppression becomes the latest one, and a reconfirmed consent after it makes the
      subscriber active again. */
  lemma NoSuppressionIsPermanent(s: Mail, now: int, id: Id, audienceId: Id, t: int, evidence: string, k: Id,
      receiptId: Id) returns (consent: Consent)
    requires Subscribers(s) && id in s.people.subscribers && s.people.subscribers[id].suppressed
    requires audienceId in s.people.audiences
    requires forall j :: j in s.people.suppressions && s.people.suppressions[j].subscriberId == id ==>
      s.people.suppressions[j].occurredAt < t
    requires t < now + CLOCK_SKEW && |s.people.suppressions| < SCAN_LIMIT && !Full(s.people.consents)
    requires k !in s.people.suppressions && receiptId !in s.people.consents
    ensures var n := After(s, now, Suppress(id, Manual, t, evidence, k));
      var c := Reactivate(id, audienceId, consent, receiptId);
      Step(n, now, c).Done? && id in After(n, now, c).people.subscribers
        && !After(n, now, c).people.subscribers[id].suppressed
  {
    consent := Consent(true, false, s.people.audiences[audienceId], ["updates"], t + 1, true, true, "");
    var n := After(s, now, Suppress(id, Manual, t, evidence, k));
    ManualSuppression(s, now, id, t, evidence, k);
    ManualIsLatest(s, n, id, t, k);
    AfterReversible(n, now, Reactivate(id, audienceId, consent, receiptId), k);
  }
}
