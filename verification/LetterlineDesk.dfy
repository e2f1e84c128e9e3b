/** The Letterline commands as updates of the record store, proved against their specification. */
module LetterlineDesk {
  import opened Options
  import opened Sorting
  import opened Letterline
  import opened LetterlineRuns
  import opened LetterlineReturn

  /** Some run of commands leaves this store. */
  ghost predicate Reachable(s: Mail) {
    exists calls :: Run(EMPTY, calls) == s
  }

  lemma AfterIsReachable(s: Mail, now: int, c: Command)
    requires Reachable(s)
    ensures Reachable(After(s, now, c))
  {
    var calls :| Run(EMPTY, calls) == s;
    RunThen(EMPTY, calls, Call(now, c));
    assert Run(EMPTY, calls + [Call(now, c)]) == After(s, now, c);
  }

  /** So whatever a desk is asked, its records keep every promise that runs keep. */
  lemma ReachableIsSound(s: Mail)
    requires Reachable(s)
    ensures Inv(s) && Dated(s)
  {
    var calls :| Run(EMPTY, calls) == s;
    RunsKeepInv(EMPTY, calls);
    RunsKeepDated(EMPTY, calls);
  }

  class Desk {
    var people: People
    var press: Press

    constructor ()
      ensures Valid() && State() == EMPTY
    {
      people, press := EMPTY.people, EMPTY.press;
      new;
      assert Run(EMPTY, []) == EMPTY;
    }

    function State(): Mail
      reads this
    {
      Mail(people, press)
    }

    ghost predicate Valid()
      reads this
    {
      Reachable(State())
    }

    /** `latestSuppression`. */
    method LatestSuppression(subscriberId: Id) returns (latest: Option<Id>)
      ensures latest == Latest(people.suppressions, subscriberId)
    {
      latest := None;
      var rest := people.suppressions.Keys;
      while rest != {}
        invariant rest <= people.suppressions.Keys
        invariant latest.None? ==>
          forall k :: k in people.suppressions && k !in rest ==> people.suppressions[k].subscriberId != subscriberId
        invariant latest.Some? ==>
          latest.value in people.suppressions && people.suppressions[latest.value].subscriberId == subscriberId
        invariant latest.Some? ==>
          forall k :: k in people.suppressions && k !in rest && people.suppressions[k].subscriberId == subscriberId ==>
          NotLater(people.suppressions, k, latest.value)
        decreases rest
      {
        var k :| k in rest;
        if people.suppressions[k].subscriberId == subscriberId
          && (latest.None? || NotLater(people.suppressions, latest.value, k)) {
          latest := Some(k);
        }
        rest := rest - {k};
      }
      if latest.Some? {
        assert IsLatest(people.suppressions, subscriberId, latest.value);
        LatestIsUnique(people.suppressions, subscriberId, latest.value);
      }
    }

    method SubscriberOptIn(now: int, c: Command) returns (ok: bool)
      requires Valid() && c.OptIn?
      modifies `people
      ensures Valid() && State() == After(old(State()), now, c)
      ensures ok <==> Step(old(State()), now, c).Done?
    {
      AfterIsReachable(State(), now, c);
      if c.audienceId !in people.audiences || !ConsentOk(c.consent, people.audiences[c.audienceId], now, false) {
        return false;
      }
      if Full(people.subscribers) || Full(people.consents) || c.receiptId in people.consents {
        return false;
      }
      var existing := Existing(State(), c.address);
      if existing.None? {
        ok := CreateSubscriber(c);
      } else {
        ok := UpdateSubscriber(c, existing.value);
      }
    }

    method CreateSubscriber(c: Command) returns (ok: bool)
      requires c.OptIn?
      modifies `people
      ensures ok <==> Enrol(old(State()), c).Done?
      ensures State() == if ok then Enrol(old(State()), c).mail else old(State())
    {
      ok := c.subscriberId !in people.subscribers;
      if ok {
        var receipt := ConsentReceipt(InitialOptIn, c.subscriberId, c.address, c.audienceId, c.consent);
        var subscriber := Subscriber(c.address, false, {c.audienceId}, c.consent.capturedAt, None, 1);
        people := people.(subscribers := people.subscribers[c.subscriberId := subscriber]);
        people := people.(consents := RecordConsent(people.consents, receipt, c.receiptId));
        people := people.(subscribers := people.subscribers[c.subscriberId := subscriber.(receipt := Some(receipt))]);
      }
    }

    method UpdateSubscriber(c: Command, id: Id) returns (ok: bool)
      requires c.OptIn? && id in people.subscribers
      modifies `people
      ensures ok <==> Renew(old(State()), c, id).Done?
      ensures State() == if ok then Renew(old(State()), c, id).mail else old(State())
    {
      var subscriber := people.subscribers[id];
      ok := !subscriber.suppressed && c.consent.capturedAt >= subscriber.consentAt;
      if ok {
        var receipt := ConsentReceipt(RepeatOptIn, id, c.address, c.audienceId, c.consent);
        subscriber := subscriber.(audiences := subscriber.audiences + {c.audienceId},
          consentAt := c.consent.capturedAt, version := subscriber.version + 1);
        people := people.(subscribers := people.subscribers[id := subscriber]);
        people := people.(consents := RecordConsent(people.consents, receipt, c.receiptId));
        people := people.(subscribers := people.subscribers[id := subscriber.(receipt := Some(receipt))]);
      }
    }

    method SubscriberReactivate(now: int, c: Command) returns (ok: bool)
      requires Valid() && c.Reactivate?
      modifies `people
      ensures Valid() && State() == After(old(State()), now, c)
      ensures ok <==> Step(old(State()), now, c).Done?
    {
      AfterIsReachable(State(), now, c);
      if c.subscriberId !in people.subscribers || c.audienceId !in people.audiences {
        return false;
      }
      var subscriber := people.subscribers[c.subscriberId];
      if !subscriber.suppressed || Full(people.suppressions) {
        return false;
      }
      var latest := LatestSuppression(c.subscriberId);
      if latest.None? {
        return false;
      }
      var suppression := people.suppressions[latest.value];
      if !suppression.reason.Unsubscribe? && !suppression.reason.Manual? {
        return false;
      }
      if !ConsentOk(c.consent, people.audiences[c.audienceId], now, true)
        || c.consent.capturedAt <= suppression.occurredAt {
        return false;
      }
      if Full(people.consents) || c.receiptId in people.consents {
        return false;
      }
      var receipt := ConsentReceipt(Reactivation, c.subscriberId, subscriber.address, c.audienceId, c.consent);
      subscriber := subscriber.(suppressed := false, audiences := subscriber.audiences + {c.audienceId},
        consentAt := c.consent.capturedAt, version := subscriber.version + 1);
      people := people.(consents := RecordConsent(people.consents, receipt, c.receiptId));
      people := people.(subscribers := people.subscribers[c.subscriberId := subscriber.(receipt := Some(receipt))]);
      ok := true;
    }

    method Apply(subscriberId: Id, reason: Reason, occurredAt: int, evidence: string, source: Option<Id>,
        suppressionId: Id) returns (ok: bool)
      requires subscriberId in people.subscribers
      modifies `people
      ensures
        var out := ApplySuppression(old(State()), subscriberId, reason, occurredAt, evidence, source, suppressionId);
        (ok <==> out.Done?) && State() == if ok then out.mail else old(State())
    {
      var subscriber := people.subscribers[subscriberId];
      if occurredAt < subscriber.consentAt || Full(people.suppressions) {
        return false;
      }
      var payload := Suppression(subscriberId, subscriber.address, reason, occurredAt, evidence, source);
      if exists k :: k in people.suppressions && people.suppressions[k] == payload {
        return true;
      }
      if suppressionId in people.suppressions {
        return false;
      }
      people := people.(suppressions := people.suppressions[suppressionId := payload]);
      people := people.(subscribers :=
        people.subscribers[subscriberId := subscriber.(suppressed := true, version := subscriber.version + 1)]);
      ok := true;
    }

    /** The whole command is one storage transaction: what it wrote before a refusal is rolled back. */
    method ProviderReceiptIngest(now: int, c: Command) returns (ok: bool)
      requires Valid() && c.Ingest?
      modifies `people
      ensures Valid() && State() == After(old(State()), now, c)
      ensures ok <==> Step(old(State()), now, c).Done?
    {
      AfterIsReachable(State(), now, c);
      var event := c.event;
      if event.planId !in press.plans || event.subscriberId !in people.subscribers
        || !IsRecipient(press.plans[event.planId], event.subscriberId) {
        return false;
      }
      if event.occurredAt > now + CLOCK_SKEW || event.verifiedAt > now + CLOCK_SKEW
        || event.verifiedAt < event.occurredAt || Full(people.events) {
        return false;
      }
      if c.eventId in people.events {
        return people.events[c.eventId] == event;
      }
      var before := people;
      people := people.(events := people.events[c.eventId := event]);
      ok := true;
      if SuppressiveReason(event.eventType).Some? {
        ok := Apply(event.subscriberId, SuppressiveReason(event.eventType).value, event.occurredAt, event.evidence,
          Some(c.receiptId), c.suppressionId);
        if !ok {
          people := before;
        }
      }
    }

    method CampaignVersionDraft(now: int, c: Command) returns (ok: bool)
      requires Valid() && c.DraftVersion?
      modifies `press
      ensures Valid() && State() == After(old(State()), now, c)
      ensures ok <==> Step(old(State()), now, c).Done?
    {
      AfterIsReachable(State(), now, c);
      if c.campaignId !in press.campaigns {
        return false;
      }
      var campaign := press.campaigns[c.campaignId];
      if c.expectedVersion != campaign.version || Full(press.versions) || c.versionId in press.versions {
        return false;
      }
      var hash := ContentHash(c.campaignId, campaign.audienceId, c.content);
      var prior := set v | v in press.versions && press.versions[v].campaignId == c.campaignId;
      press := press.(versions := press.versions[c.versionId := Version(c.campaignId, |prior| + 1, hash)]);
      press := press.(campaigns := press.campaigns[c.campaignId :=
        campaign.(state := Draft, version := campaign.version + 1, versionId := Some(c.versionId), hash := Some(hash),
                  reviewId := None, approvalId := None, scheduleId := None, planId := None)]);
      ok := true;
    }

    method CampaignReview(now: int, c: Command) returns (ok: bool)
      requires Valid() && c.ReviewVersion?
      modifies `press
      ensures Valid() && State() == After(old(State()), now, c)
      ensures ok <==> Step(old(State()), now, c).Done?
    {
      AfterIsReachable(State(), now, c);
      if !Current(State(), c.basis) {
        return false;
      }
      var campaign := press.campaigns[c.basis.campaignId];
      if !campaign.state.Draft? || c.reviewId in press.reviews {
        return false;
      }
      var state := if c.positive then Reviewed else ChangesRequested;
      press := press.(reviews :=
        press.reviews[c.reviewId := Review(c.basis.campaignId, c.basis.versionId, c.basis.hash, c.positive)]);
      press := press.(campaigns :=
        press.campaigns[c.basis.campaignId :=
          campaign.(state := state, version := campaign.version + 1, reviewId := Some(c.reviewId))]);
      ok := true;
    }

    method CampaignApprove(now: int, c: Command) returns (ok: bool)
      requires Valid() && c.Approve?
      modifies `press
      ensures Valid() && State() == After(old(State()), now, c)
      ensures ok <==> Step(old(State()), now, c).Done?
    {
      AfterIsReachable(State(), now, c);
      if !Current(State(), c.basis) || c.reviewId !in press.reviews {
        return false;
      }
      var campaign, review := press.campaigns[c.basis.campaignId], press.reviews[c.reviewId];
      if !campaign.state.Reviewed? || campaign.reviewId != Some(c.reviewId) || review.versionId != c.basis.versionId
         || review.hash != c.basis.hash || !review.positive || c.approvalId in press.approvals {
        return false;
      }
      press := press.(approvals :=
        press.approvals[c.approvalId := Approval(c.basis.campaignId, c.basis.versionId, c.basis.hash, c.reviewId)]);
      press := press.(campaigns :=
        press.campaigns[c.basis.campaignId :=
          campaign.(state := Approved, version := campaign.version + 1, approvalId := Some(c.approvalId))]);
      ok := true;
    }

    method CampaignSchedule(now: int, c: Command) returns (ok: bool)
      requires Valid() && c.ScheduleCampaign?
      modifies `press
      ensures Valid() && State() == After(old(State()), now, c)
      ensures ok <==> Step(old(State()), now, c).Done?
    {
      AfterIsReachable(State(), now, c);
      if !Current(State(), c.basis) {
        return false;
      }
      var campaign := press.campaigns[c.basis.campaignId];
      if !campaign.state.Approved? || campaign.approvalId.None? || c.scheduledAt <= now
        || c.scheduleId in press.schedules {
        return false;
      }
      var schedule :=
        Schedule(c.basis.campaignId, c.basis.versionId, c.basis.hash, campaign.approvalId.value, c.scheduledAt);
      press := press.(schedules := press.schedules[c.scheduleId := schedule]);
      press := press.(campaigns := press.campaigns[c.basis.campaignId :=
        campaign.(state := Scheduled, version := campaign.version + 1, scheduleId := Some(c.scheduleId),
          scheduledAt := c.scheduledAt)]);
      ok := true;
    }

    method IsEffectivelySuppressed(id: Id) returns (suppressed: bool)
      requires id in people.subscribers
      ensures suppressed <==> EffectivelySuppressed(State(), id)
    {
      if people.subscribers[id].suppressed {
        return true;
      }
      var latest := LatestSuppression(id);
      suppressed := latest.Some? && people.suppressions[latest.value].occurredAt >= people.subscribers[id].consentAt;
    }

    /** `eligibleRecipients`: one pass over the subscribers, in whatever order the store lists them, then a sort.
        The manifest does not depend on that order. */
    method EligibleRecipients(audienceId: Id) returns (eligible: seq<Recipient>, excluded: set<Id>)
      ensures eligible == Recipients(State(), audienceId)
      ensures excluded == set id | id in people.subscribers && audienceId in people.subscribers[id].audiences
        && !MayReceive(State(), id, audienceId)
    {
      eligible, excluded := [], {};
      var rest := people.subscribers.Keys;
      while rest != {}
        invariant rest <= people.subscribers.Keys
        invariant forall r :: r in eligible ==> r.subscriberId !in rest
        invariant Distinct(eligible)
        invariant forall r :: r in eligible <==>
          r.subscriberId !in rest && MayReceive(State(), r.subscriberId, audienceId)
            && r == RecipientFor(State(), r.subscriberId)
        invariant excluded == set id | id in people.subscribers && id !in rest
          && audienceId in people.subscribers[id].audiences && !MayReceive(State(), id, audienceId)
        decreases rest
      {
        var id :| id in rest;
        rest := rest - {id};
        var subscriber := people.subscribers[id];
        if audienceId in subscriber.audiences {
          var suppressed := IsEffectivelySuppressed(id);
          if suppressed || subscriber.receipt.None? {
            excluded := excluded + {id};
          } else {
            eligible := eligible + [RecipientFor(State(), id)];
          }
        }
      }
      SameManifest(State(), audienceId, eligible);
      eligible := Sort(eligible, Before);
    }

    method MayPlan(c: Command) returns (ok: bool, eligible: seq<Recipient>)
      requires c.CreatePlan?
      ensures ok <==> StepPlan(State(), c).Done?
      ensures ok ==> eligible == Recipients(State(), press.campaigns[c.basis.campaignId].audienceId)
    {
      ok, eligible := false, [];
      if !Current(State(), c.basis) {
        return;
      }
      var campaign := press.campaigns[c.basis.campaignId];
      if !campaign.state.Scheduled? || campaign.scheduleId.None? || campaign.scheduledAt != c.scheduledAt {
        return;
      }
      if Full(people.subscribers) || (ScansSuppressions(State(), campaign.audienceId) && Full(people.suppressions)) {
        return;
      }
      var excluded;
      eligible, excluded := EligibleRecipients(campaign.audienceId);
      ok := eligible != [] && c.planId !in press.plans;
    }

    method DispatchPlanCreate(now: int, c: Command) returns (ok: bool)
      requires Valid() && c.CreatePlan?
      modifies `press
      ensures Valid() && State() == After(old(State()), now, c)
      ensures ok <==> Step(old(State()), now, c).Done?
    {
      AfterIsReachable(State(), now, c);
      var eligible;
      ok, eligible := MayPlan(c);
      if ok {
        var campaign := press.campaigns[c.basis.campaignId];
        var plan := Plan(c.basis.campaignId, c.basis.versionId, c.basis.hash, campaign.audienceId,
          campaign.scheduleId.value, eligible);
        press := press.(plans := press.plans[c.planId := plan]);
        press := press.(campaigns :=
          press.campaigns[c.basis.campaignId :=
            campaign.(state := DispatchPlanned, version := campaign.version + 1, planId := Some(c.planId))]);
      }
    }

    method AudienceCreate(now: int, c: Command) returns (ok: bool)
      requires Valid() && c.CreateAudience?
      modifies `people
      ensures Valid() && State() == After(old(State()), now, c)
      ensures ok <==> Step(old(State()), now, c).Done?
    {
      AfterIsReachable(State(), now, c);
      ok := c.id !in people.audiences;
      if ok {
        people := people.(audiences := people.audiences[c.id := c.policy]);
      }
    }

    method SubscriberSuppress(now: int, c: Command) returns (ok: bool)
      requires Valid() && c.Suppress?
      modifies `people
      ensures Valid() && State() == After(old(State()), now, c)
      ensures ok <==> Step(old(State()), now, c).Done?
    {
      AfterIsReachable(State(), now, c);
      if c.subscriberId !in people.subscribers || c.occurredAt > now + CLOCK_SKEW {
        return false;
      }
      ok := Apply(c.subscriberId, c.reason, c.occurredAt, c.evidence, None, c.suppressionId);
    }

    method CampaignCreate(now: int, c: Command) returns (ok: bool)
      requires Valid() && c.CreateCampaign?
      modifies `press
      ensures Valid() && State() == After(old(State()), now, c)
      ensures ok <==> Step(old(State()), now, c).Done?
    {
      AfterIsReachable(State(), now, c);
      if c.audienceId !in people.audiences || c.id in press.campaigns {
        return false;
      }
      press := press.(campaigns :=
        press.campaigns[c.id := Campaign(c.audienceId, DraftEmpty, 1, None, None, None, None, None, None, 0)]);
      ok := true;
    }

    /** `executeEmailAction`, once a request is known to be no repeat. */
    method Execute(now: int, c: Command) returns (ok: bool)
      requires Valid()
      modifies this
      ensures Valid() && State() == After(old(State()), now, c)
      ensures ok <==> Step(old(State()), now, c).Done?
    {
      match c
      case CreateAudience(_, _) => ok := AudienceCreate(now, c);
      case OptIn(_, _, _, _, _) => ok := SubscriberOptIn(now, c);
      case Reactivate(_, _, _, _) => ok := SubscriberReactivate(now, c);
      case Suppress(_, _, _, _, _) => ok := SubscriberSuppress(now, c);
      case Ingest(_, _, _, _) => ok := ProviderReceiptIngest(now, c);
      case CreateCampaign(_, _) => ok := CampaignCreate(now, c);
      case DraftVersion(_, _, _, _) => ok := CampaignVersionDraft(now, c);
      case ReviewVersion(_, _, _) => ok := CampaignReview(now, c);
      case Approve(_, _, _) => ok := CampaignApprove(now, c);
      case ScheduleCampaign(_, _, _) => ok := CampaignSchedule(now, c);
      case CreatePlan(_, _, _) => ok := DispatchPlanCreate(now, c);
    }
  }

  ghost predicate Lists(s: Mail, audienceId: Id, listed: seq<Recipient>) {
    forall r :: r in listed <==> MayReceive(s, r.subscriberId, audienceId) && r == RecipientFor(s, r.subscriberId)
  }

  lemma UnsortedLists(s: Mail, audienceId: Id)
    ensures Lists(s, audienceId, Unsorted(s, audienceId)) && Distinct(Unsorted(s, audienceId))
  {
    var ids := Ascending(ReceivingIds(s, audienceId));
    var unsorted := Unsorted(s, audienceId);
    forall r
      ensures r in unsorted <==> MayReceive(s, r.subscriberId, audienceId) && r == RecipientFor(s, r.subscriberId) {
      if r in unsorted {
        var i :| 0 <= i < |unsorted| && unsorted[i] == r;
        assert ids[i] in ids;
      }
      if MayReceive(s, r.subscriberId, audienceId) && r == RecipientFor(s, r.subscriberId) {
        assert r.subscriberId in ids;
        var i :| 0 <= i < |ids| && ids[i] == r.subscriberId;
        assert unsorted[i] == r;
      }
    }
    assert forall i :: 0 <= i < |unsorted| ==> unsorted[i].subscriberId == ids[i];
  }

  /** Any list of the right recipients, each once, sorts to the same manifest. */
  lemma SameManifest(s: Mail, audienceId: Id, listed: seq<Recipient>)
    requires Distinct(listed) && Lists(s, audienceId, listed)
    ensures Sort(listed, Before) == Recipients(s, audienceId)
  {
    UnsortedLists(s, audienceId);
    SameDistinct(listed, Unsorted(s, audienceId));
    OneOrder(s, audienceId, listed, Unsorted(s, audienceId));
  }

  lemma OneOrder(s: Mail, audienceId: Id, xs: seq<Recipient>, ys: seq<Recipient>)
    requires Lists(s, audienceId, xs) && multiset(xs) == multiset(ys)
    ensures Sort(xs, Before) == Sort(ys, Before)
  {
    SortSorts(xs, Before);
    SortSorts(ys, Before);
    SameElements(Sort(xs, Before), xs);
    SortedPermutationIsUnique(Sort(xs, Before), Sort(ys, Before), Before);
  }
}
