/** Which suppressed subscribers can ever become active again. */
module LetterlineReturn {
  import opened Options
  import opened Sorting
  import opened Letterline
  import opened LetterlineRuns

  ghost predicate ActiveIn(s: Mail, id: Id) {
    id in s.people.subscribers && !s.people.subscribers[id].suppressed
  }

  // ----------------------------------------------------------- records and a quota

  /** `receipts` counts the command receipts: one for each accepted command. */
  datatype Books = Books(mail: Mail, receipts: nat) {
    function Size(): nat { Count(mail) + receipts }
  }

  function CountPeople(p: People): nat {
    |p.audiences| + |p.subscribers| + |p.consents| + |p.suppressions| + |p.events|
  }

  function CountPress(p: Press): nat {
    |p.campaigns| + |p.versions| + |p.reviews| + |p.approvals| + |p.schedules| + |p.plans|
  }

  function Count(s: Mail): nat {
    CountPeople(s.people) + CountPress(s.press)
  }

  /** A record is created only while the workspace holds fewer than its plan allows; otherwise the whole call is rolled
      back. `cap` is what this leaves for Letterline. */
  ghost predicate Commits(cap: nat, b: Books, call: Call) {
    && Step(b.mail, call.now, call.command).Done?
    && Count(After(b.mail, call.now, call.command)) + b.receipts + 1 <= cap
  }

  ghost function Try(cap: nat, b: Books, call: Call): Books {
    if Commits(cap, b, call) then Books(After(b.mail, call.now, call.command), b.receipts + 1) else b
  }

  ghost function TryAll(cap: nat, b: Books, calls: seq<Call>): Books
    decreases |calls|
  {
    if calls == [] then b else TryAll(cap, Try(cap, b, calls[0]), calls[1..])
  }

  lemma TryFirst(cap: nat, b: Books, call: Call, rest: seq<Call>)
    ensures TryAll(cap, b, [call] + rest) == TryAll(cap, Try(cap, b, call), rest)
  {
    assert ([call] + rest)[1..] == rest;
  }

  /** Under a quota, the calls that took effect are a run. */
  lemma {:induction false} TryAllIsRun(cap: nat, b: Books, calls: seq<Call>) returns (sub: seq<Call>)
    ensures TryAll(cap, b, calls).mail == Run(b.mail, sub)
    decreases |calls|
  {
    if calls == [] {
      sub := [];
    } else {
      var rest := TryAllIsRun(cap, Try(cap, b, calls[0]), calls[1..]);
      sub := if Commits(cap, b, calls[0]) then [calls[0]] + rest else rest;
      assert ([calls[0]] + rest)[1..] == rest;
    }
  }

  ghost predicate CanReturn(cap: nat, b: Books, id: Id) {
    exists calls :: ActiveIn(TryAll(cap, b, calls).mail, id)
  }

  /** The suppression a reactivation compares with is an unsubscribe or a manual one. */
  ghost predicate LatestReversible(s: Mail, id: Id) {
    var latest := Latest(s.people.suppressions, id);
    latest.Some? && Reversible(s.people.suppressions[latest.value].reason)
  }

  /** There is room for one more consent, and the suppressions can be listed: after one more, if the latest is not
      reversible. */
  ghost predicate HasRoom(s: Mail, id: Id) {
    && !Full(s.people.consents)
    && if LatestReversible(s, id) then !Full(s.people.suppressions) else |s.people.suppressions| < SCAN_LIMIT
  }

  /** The records of a return: an audience, if there is none, a suppression, unless the latest is reversible, and a
      consent, each with a receipt. */
  ghost function Cost(s: Mail, id: Id): nat {
    (if s.people.audiences == map[] then 2 else 0) + (if LatestReversible(s, id) then 2 else 4)
  }

  // ----------------------------------------------------------- consents have dates

  /** No recorded consent is newer than the subscriber's clock. */
  ghost predicate Dated(s: Mail) {
    forall k :: k in s.people.consents ==> DatedAt(s, s.people.consents[k])
  }

  ghost predicate DatedAt(s: Mail, receipt: ConsentReceipt) {
    receipt.subscriberId in s.people.subscribers
      && receipt.consent.capturedAt <= s.people.subscribers[receipt.subscriberId].consentAt
  }

  /** At most `receipt` is new, and it is of the subscriber's new clock. */
  ghost predicate Consents(s: Mail, n: Mail, receipt: ConsentReceipt) {
    DatedAt(n, receipt)
      && forall k :: k in n.people.consents ==>
           n.people.consents[k] == receipt || (k in s.people.consents && n.people.consents[k] == s.people.consents[k])
  }

  lemma StaysDated(s: Mail, n: Mail, receipt: ConsentReceipt)
    requires Dated(s) && Remembers(s, n) && Consents(s, n, receipt)
    ensures Dated(n)
  {
    forall k | k in n.people.consents ensures DatedAt(n, n.people.consents[k]) {
      if n.people.consents[k] != receipt {
        var id := s.people.consents[k].subscriberId;
        assert DatedAt(s, s.people.consents[k]);
        assert NoEarlier(s.people.subscribers[id], n.people.subscribers[id]);
      }
    }
  }

  lemma SameConsentsDated(s: Mail, n: Mail)
    requires Dated(s) && Remembers(s, n) && n.people.consents == s.people.consents
    ensures Dated(n)
  {
    forall k | k in n.people.consents ensures DatedAt(n, n.people.consents[k]) {
      var id := s.people.consents[k].subscriberId;
      assert DatedAt(s, s.people.consents[k]);
      assert NoEarlier(s.people.subscribers[id], n.people.subscribers[id]);
    }
  }

  lemma EnrolConsents(s: Mail, c: Command) returns (receipt: ConsentReceipt)
    requires c.OptIn? && Enrol(s, c).Done?
    ensures Consents(s, Enrol(s, c).mail, receipt)
  {
    receipt := ConsentReceipt(InitialOptIn, c.subscriberId, c.address, c.audienceId, c.consent);
  }

  lemma RenewConsents(s: Mail, c: Command, id: Id) returns (receipt: ConsentReceipt)
    requires c.OptIn? && id in s.people.subscribers && Renew(s, c, id).Done?
    ensures Consents(s, Renew(s, c, id).mail, receipt)
  {
    receipt := ConsentReceipt(RepeatOptIn, id, c.address, c.audienceId, c.consent);
  }

  lemma OptInConsents(s: Mail, now: int, c: Command) returns (receipt: ConsentReceipt)
    requires c.OptIn? && StepOptIn(s, now, c).Done?
    ensures Consents(s, StepOptIn(s, now, c).mail, receipt)
  {
    match Existing(s, c.address)
    case None => receipt := EnrolConsents(s, c);
    case Some(id) => receipt := RenewConsents(s, c, id);
  }

  lemma ReactivateConsents(s: Mail, now: int, c: Command) returns (receipt: ConsentReceipt)
    requires c.Reactivate? && StepReactivate(s, now, c).Done?
    ensures Consents(s, StepReactivate(s, now, c).mail, receipt)
  {
    var address := s.people.subscribers[c.subscriberId].address;
    receipt := ConsentReceipt(Reactivation, c.subscriberId, address, c.audienceId, c.consent);
  }

  lemma ApplyLeavesConsents(s: Mail, x: Id, reason: Reason, at: int, evidence: string, source: Option<Id>, k: Id)
    requires x in s.people.subscribers && ApplySuppression(s, x, reason, at, evidence, source, k).Done?
    ensures var n := ApplySuppression(s, x, reason, at, evidence, source, k).mail;
      n.people.consents == s.people.consents && n.people.audiences == s.people.audiences
  {
  }

  lemma IngestLeavesConsents(s: Mail, now: int, c: Command)
    requires c.Ingest? && StepIngest(s, now, c).Done?
    ensures var n := StepIngest(s, now, c).mail;
      n.people.consents == s.people.consents && n.people.audiences == s.people.audiences
  {
    var e := c.event;
    var noted := s.(people := s.people.(events := s.people.events[c.eventId := e]));
    var reason := SuppressiveReason(e.eventType);
    if c.eventId !in s.people.events && reason.Some? {
      ApplyLeavesConsents(noted, e.subscriberId, reason.value, e.occurredAt, e.evidence, Some(c.receiptId),
        c.suppressionId);
    }
  }

  lemma OthersLeaveConsents(s: Mail, now: int, c: Command)
    requires !c.OptIn? && !c.Reactivate? && Step(s, now, c).Done?
    ensures After(s, now, c).people.consents == s.people.consents
  {
    match c
    case Suppress(x, reason, at, evidence, k) => ApplyLeavesConsents(s, x, reason, at, evidence, None, k);
    case Ingest(_, _, _, _) => IngestLeavesConsents(s, now, c);
    case CreateAudience(_, _) =>
    case _ => CampaignLeavesPeople(s, now, c);
  }

  lemma StepKeepsDated(s: Mail, now: int, c: Command)
    requires Subscribers(s) && Dated(s)
    ensures Dated(After(s, now, c))
  {
    if Step(s, now, c).Done? {
      StepRemembers(s, now, c);
      if c.OptIn? {
        var receipt := OptInConsents(s, now, c);
        StaysDated(s, After(s, now, c), receipt);
      } else if c.Reactivate? {
        var receipt := ReactivateConsents(s, now, c);
        StaysDated(s, After(s, now, c), receipt);
      } else {
        OthersLeaveConsents(s, now, c);
        SameConsentsDated(s, After(s, now, c));
      }
    }
  }

  lemma {:induction false} RunsKeepDated(s: Mail, calls: seq<Call>)
    requires Subscribers(s) && Dated(s)
    ensures Dated(Run(s, calls))
    decreases |calls|
  {
    if calls != [] {
      var n := After(s, calls[0].now, calls[0].command);
      StepKeepsDated(s, calls[0].now, calls[0].command);
      StepKeepsSubscribers(s, calls[0].now, calls[0].command);
      RunsKeepDated(n, calls[1..]);
    }
  }

  // --------------------------------------------------------------- without room

  ghost predicate Shut(s: Mail, id: Id) {
    && id in s.people.subscribers && s.people.subscribers[id].suppressed
    && (Full(s.people.consents) || Full(s.people.suppressions)
        || (|s.people.suppressions| == SCAN_LIMIT && !LatestReversible(s, id)))
  }

  /** The subscriber stays suppressed and no record is lost. */
  ghost predicate KeepsSuppressed(s: Mail, n: Mail, id: Id) {
    && id in n.people.subscribers && n.people.subscribers[id].suppressed
    && |s.people.consents| <= |n.people.consents|
    && (n.people.suppressions == s.people.suppressions
        || (!Full(s.people.suppressions) && |n.people.suppressions| == |s.people.suppressions| + 1))
  }

  lemma KeptIsShut(s: Mail, n: Mail, id: Id)
    requires Shut(s, id) && KeepsSuppressed(s, n, id)
    ensures Shut(n, id)
  {
  }

  lemma ConsentsGrow(consents: map<Id, ConsentReceipt>, receipt: ConsentReceipt, id: Id)
    ensures |consents| <= |RecordConsent(consents, receipt, id)|
  {
    assert consents.Keys <= RecordConsent(consents, receipt, id).Keys;
    Fewer(consents.Keys, RecordConsent(consents, receipt, id).Keys);
  }

  lemma Fewer<T>(a: set<T>, b: set<T>)
    requires a <= b
    ensures |a| <= |b|
  {
    assert b == a + (b - a);
  }

  lemma EnrolKeepsSuppressed(s: Mail, c: Command, id: Id)
    requires c.OptIn? && Enrol(s, c).Done? && id in s.people.subscribers && s.people.subscribers[id].suppressed
    ensures KeepsSuppressed(s, Enrol(s, c).mail, id)
  {
    var receipt := ConsentReceipt(InitialOptIn, c.subscriberId, c.address, c.audienceId, c.consent);
    ConsentsGrow(s.people.consents, receipt, c.receiptId);
  }

  lemma RenewKeepsSuppressed(s: Mail, c: Command, x: Id, id: Id)
    requires c.OptIn? && x in s.people.subscribers && Renew(s, c, x).Done?
    requires id in s.people.subscribers && s.people.subscribers[id].suppressed
    ensures KeepsSuppressed(s, Renew(s, c, x).mail, id)
  {
    var receipt := ConsentReceipt(RepeatOptIn, x, c.address, c.audienceId, c.consent);
    ConsentsGrow(s.people.consents, receipt, c.receiptId);
  }

  lemma OptInKeepsSuppressed(s: Mail, now: int, c: Command, id: Id)
    requires c.OptIn? && StepOptIn(s, now, c).Done? && id in s.people.subscribers && s.people.subscribers[id].suppressed
    ensures KeepsSuppressed(s, StepOptIn(s, now, c).mail, id)
  {
    match Existing(s, c.address)
    case None => EnrolKeepsSuppressed(s, c, id);
    case Some(x) => RenewKeepsSuppressed(s, c, x, id);
  }

  lemma ReactivateIsRefused(s: Mail, now: int, c: Command, id: Id)
    requires Shut(s, id) && c.Reactivate? && c.subscriberId == id
    ensures StepReactivate(s, now, c).Refused?
  {
  }

  lemma ReactivateKeepsSuppressed(s: Mail, now: int, c: Command, id: Id)
    requires c.Reactivate? && StepReactivate(s, now, c).Done? && c.subscriberId != id
    requires id in s.people.subscribers && s.people.subscribers[id].suppressed
    ensures KeepsSuppressed(s, StepReactivate(s, now, c).mail, id)
  {
    var address := s.people.subscribers[c.subscriberId].address;
    var receipt := ConsentReceipt(Reactivation, c.subscriberId, address, c.audienceId, c.consent);
    ConsentsGrow(s.people.consents, receipt, c.receiptId);
  }

  lemma ApplyKeepsSuppressed(s: Mail, x: Id, reason: Reason, at: int, evidence: string, source: Option<Id>, k: Id,
      id: Id)
    requires x in s.people.subscribers && ApplySuppression(s, x, reason, at, evidence, source, k).Done?
    requires id in s.people.subscribers && s.people.subscribers[id].suppressed
    ensures KeepsSuppressed(s, ApplySuppression(s, x, reason, at, evidence, source, k).mail, id)
  {
  }

  lemma IngestKeepsSuppressed(s: Mail, now: int, c: Command, id: Id)
    requires c.Ingest? && StepIngest(s, now, c).Done? && id in s.people.subscribers
    requires s.people.subscribers[id].suppressed
    ensures KeepsSuppressed(s, StepIngest(s, now, c).mail, id)
  {
    var e := c.event;
    var noted := s.(people := s.people.(events := s.people.events[c.eventId := e]));
    var reason := SuppressiveReason(e.eventType);
    if c.eventId !in s.people.events && reason.Some? {
      ApplyKeepsSuppressed(noted, e.subscriberId, reason.value, e.occurredAt, e.evidence, Some(c.receiptId),
                           c.suppressionId, id);
    }
  }

  lemma CampaignLeavesPeople(s: Mail, now: int, c: Command)
    requires OnCampaign(c)
    ensures After(s, now, c).people == s.people
  {
    if Step(s, now, c).Done? {
      match c
      case DraftVersion(_, _, _, _) => DraftLeavesPeople(s, c);
      case ReviewVersion(_, _, _) => ReviewLeavesPeople(s, c);
      case Approve(_, _, _) => ApproveLeavesPeople(s, c);
      case ScheduleCampaign(_, _, _) => ScheduleLeavesPeople(s, now, c);
      case CreatePlan(_, _, _) => PlanLeavesPeople(s, c);
      case _ =>
    }
  }

  lemma ShutStep(s: Mail, now: int, c: Command, id: Id)
    requires Shut(s, id)
    ensures Shut(After(s, now, c), id)
  {
    if Step(s, now, c).Done? {
      var n := After(s, now, c);
      match c
      case OptIn(_, _, _, _, _) => OptInKeepsSuppressed(s, now, c, id); KeptIsShut(s, n, id);
      case Reactivate(x, _, _, _) =>
        if x == id {
          ReactivateIsRefused(s, now, c, id);
        } else {
          ReactivateKeepsSuppressed(s, now, c, id);
          KeptIsShut(s, n, id);
        }
      case Suppress(x, reason, at, evidence, k) =>
        ApplyKeepsSuppressed(s, x, reason, at, evidence, None, k, id);
        KeptIsShut(s, n, id);
      case Ingest(_, _, _, _) => IngestKeepsSuppressed(s, now, c, id); KeptIsShut(s, n, id);
      case CreateAudience(_, _) =>
      case _ => CampaignLeavesPeople(s, now, c);
    }
  }

  lemma {:induction false} ShutForever(s: Mail, calls: seq<Call>, id: Id)
    requires Shut(s, id)
    ensures Shut(Run(s, calls), id)
    decreases |calls|
  {
    if calls != [] {
      ShutStep(s, calls[0].now, calls[0].command, id);
      ShutForever(After(s, calls[0].now, calls[0].command), calls[1..], id);
    }
  }

  // ----------------------------------------------------------- records only grow

  ghost predicate KeepsPeople(s: People, n: People) {
    && s.audiences.Keys <= n.audiences.Keys && s.subscribers.Keys <= n.subscribers.Keys
    && s.consents.Keys <= n.consents.Keys && s.suppressions.Keys <= n.suppressions.Keys
    && s.events.Keys <= n.events.Keys
  }

  ghost predicate KeepsPress(s: Press, n: Press) {
    && s.campaigns.Keys <= n.campaigns.Keys && s.versions.Keys <= n.versions.Keys && s.reviews.Keys <= n.reviews.Keys
    && s.approvals.Keys <= n.approvals.Keys && s.schedules.Keys <= n.schedules.Keys && s.plans.Keys <= n.plans.Keys
  }

  ghost predicate NoFewer(s: Mail, n: Mail) {
    CountPeople(n.people) >= CountPeople(s.people) && CountPress(n.press) >= CountPress(s.press)
  }

  lemma PressGrows(s: Press, n: Press)
    requires KeepsPress(s, n)
    ensures CountPress(n) >= CountPress(s)
  {
    Fewer(s.campaigns.Keys, n.campaigns.Keys);
    Fewer(s.versions.Keys, n.versions.Keys);
    Fewer(s.reviews.Keys, n.reviews.Keys);
    Fewer(s.approvals.Keys, n.approvals.Keys);
    Fewer(s.schedules.Keys, n.schedules.Keys);
    Fewer(s.plans.Keys, n.plans.Keys);
  }

  lemma PeopleGrow(s: People, n: People)
    requires KeepsPeople(s, n)
    ensures CountPeople(n) >= CountPeople(s)
    ensures |n.suppressions| == |s.suppressions| + 1 ==> CountPeople(n) >= CountPeople(s) + 1
  {
    Fewer(s.audiences.Keys, n.audiences.Keys);
    Fewer(s.subscribers.Keys, n.subscribers.Keys);
    Fewer(s.consents.Keys, n.consents.Keys);
    Fewer(s.suppressions.Keys, n.suppressions.Keys);
    Fewer(s.events.Keys, n.events.Keys);
  }

  lemma DraftGrows(s: Mail, c: Command)
    requires c.DraftVersion? && StepDraft(s, c).Done?
    ensures KeepsPress(s.press, StepDraft(s, c).mail.press)
  {
  }

  lemma ReviewGrows(s: Mail, c: Command)
    requires c.ReviewVersion? && StepReview(s, c).Done?
    ensures KeepsPress(s.press, StepReview(s, c).mail.press)
  {
  }

  lemma ApproveGrows(s: Mail, c: Command)
    requires c.Approve? && StepApprove(s, c).Done?
    ensures KeepsPress(s.press, StepApprove(s, c).mail.press)
  {
  }

  lemma ScheduleGrows(s: Mail, now: int, c: Command)
    requires c.ScheduleCampaign? && StepSchedule(s, now, c).Done?
    ensures KeepsPress(s.press, StepSchedule(s, now, c).mail.press)
  {
  }

  lemma PlanGrows(s: Mail, c: Command)
    requires c.CreatePlan? && StepPlan(s, c).Done?
    ensures KeepsPress(s.press, StepPlan(s, c).mail.press)
  {
  }

  lemma CampaignGrows(s: Mail, now: int, c: Command)
    requires OnCampaign(c) && Step(s, now, c).Done?
    ensures NoFewer(s, After(s, now, c)) && After(s, now, c).people == s.people
  {
    CampaignLeavesPeople(s, now, c);
    match c
    case DraftVersion(_, _, _, _) => DraftGrows(s, c); PressGrows(s.press, StepDraft(s, c).mail.press);
    case ReviewVersion(_, _, _) => ReviewGrows(s, c); PressGrows(s.press, StepReview(s, c).mail.press);
    case Approve(_, _, _) => ApproveGrows(s, c); PressGrows(s.press, StepApprove(s, c).mail.press);
    case ScheduleCampaign(_, _, _) =>
      ScheduleGrows(s, now, c);
      PressGrows(s.press, StepSchedule(s, now, c).mail.press);
    case CreatePlan(_, _, _) => PlanGrows(s, c); PressGrows(s.press, StepPlan(s, c).mail.press);
    case CreateCampaign(_, _) => PressGrows(s.press, After(s, now, c).press);
  }

  lemma ApplyGrows(s: Mail, x: Id, reason: Reason, at: int, evidence: string, source: Option<Id>, k: Id)
    requires x in s.people.subscribers && ApplySuppression(s, x, reason, at, evidence, source, k).Done?
    ensures var n := ApplySuppression(s, x, reason, at, evidence, source, k).mail;
      KeepsPeople(s.people, n.people) && n.press == s.press
  {
  }

  lemma IngestGrows(s: Mail, now: int, c: Command)
    requires c.Ingest? && StepIngest(s, now, c).Done?
    ensures KeepsPeople(s.people, StepIngest(s, now, c).mail.people) && StepIngest(s, now, c).mail.press == s.press
  {
    var e := c.event;
    var noted := s.(people := s.people.(events := s.people.events[c.eventId := e]));
    var reason := SuppressiveReason(e.eventType);
    if c.eventId !in s.people.events && reason.Some? {
      ApplyGrows(noted, e.subscriberId, reason.value, e.occurredAt, e.evidence, Some(c.receiptId), c.suppressionId);
    }
  }

  /** Only subscribers and consents were added. */
  ghost predicate OptInOnly(s: Mail, n: Mail) {
    && KeepsPeople(s.people, n.people) && n.press == s.press && n.people.audiences == s.people.audiences
    && n.people.suppressions == s.people.suppressions
  }

  lemma EnrolGrows(s: Mail, c: Command)
    requires c.OptIn? && Enrol(s, c).Done?
    ensures OptInOnly(s, Enrol(s, c).mail)
  {
  }

  lemma RenewGrows(s: Mail, c: Command, id: Id)
    requires c.OptIn? && id in s.people.subscribers && Renew(s, c, id).Done?
    ensures OptInOnly(s, Renew(s, c, id).mail)
  {
  }

  lemma OptInGrows(s: Mail, now: int, c: Command)
    requires c.OptIn? && StepOptIn(s, now, c).Done?
    ensures OptInOnly(s, StepOptIn(s, now, c).mail)
  {
    match Existing(s, c.address)
    case None => EnrolGrows(s, c);
    case Some(id) => RenewGrows(s, c, id);
  }

  lemma ReactivateGrows(s: Mail, now: int, c: Command)
    requires c.Reactivate? && StepReactivate(s, now, c).Done?
    ensures OptInOnly(s, StepReactivate(s, now, c).mail)
  {
  }

  /** A reactivation's consent is newer than all the subscriber gave, so its receipt is a new record. */
  lemma ReactivationIsRecorded(s: Mail, now: int, c: Command)
    requires Subscribers(s) && Dated(s) && c.Reactivate? && StepReactivate(s, now, c).Done?
    ensures Count(StepReactivate(s, now, c).mail) == Count(s) + 1
  {
    var n := StepReactivate(s, now, c).mail;
    var address := s.people.subscribers[c.subscriberId].address;
    var receipt := ConsentReceipt(Reactivation, c.subscriberId, address, c.audienceId, c.consent);
    ReactivationIsLater(s, now, c);
    assert forall k :: k in s.people.consents ==> DatedAt(s, s.people.consents[k]);
    assert n.people.consents == s.people.consents[c.receiptId := receipt];
    assert n.people.subscribers.Keys == s.people.subscribers.Keys;
    assert |n.people.subscribers.Keys| == |s.people.subscribers.Keys|;
  }

  // --------------------------------------------------------------- without records

  /** The subscriber is suppressed, and the records of a return exceed the quota. */
  ghost predicate Tight(cap: nat, b: Books, id: Id) {
    && id in b.mail.people.subscribers && b.mail.people.subscribers[id].suppressed
    && b.Size() + Cost(b.mail, id) > cap
  }

  /** The subscriber stays suppressed, and the cost of a return falls by no more than the records grow, without their
      receipt. */
  ghost predicate PaysFor(s: Mail, n: Mail, id: Id) {
    && id in n.people.subscribers && n.people.subscribers[id].suppressed
    && Count(n) + 1 + Cost(n, id) >= Count(s) + Cost(s, id)
  }

  lemma SameCost(s: Mail, n: Mail, id: Id)
    requires KeepsSuppressed(s, n, id) && NoFewer(s, n) && n.people.audiences == s.people.audiences
    requires n.people.suppressions == s.people.suppressions
    ensures PaysFor(s, n, id)
  {
  }

  lemma SuppressionPays(s: Mail, n: Mail, id: Id)
    requires KeepsSuppressed(s, n, id) && KeepsPeople(s.people, n.people) && n.press == s.press
    requires n.people.audiences == s.people.audiences
    ensures PaysFor(s, n, id)
  {
    PeopleGrow(s.people, n.people);
  }

  ghost function AudienceOnly(s: Mail, a: Id, policy: string): Mail {
    s.(people := s.people.(audiences := s.people.audiences[a := policy]))
  }

  lemma NewAudiencePays(s: Mail, n: Mail, id: Id)
    requires n == s.(people := s.people.(audiences := n.people.audiences)) && id in s.people.subscribers
    requires s.people.subscribers[id].suppressed && |n.people.audiences.Keys| == |s.people.audiences.Keys| + 1
    ensures PaysFor(s, n, id)
  {
  }

  lemma AudiencePays(s: Mail, now: int, c: Command, id: Id)
    requires c.CreateAudience? && Step(s, now, c).Done? && id in s.people.subscribers
    requires s.people.subscribers[id].suppressed
    ensures PaysFor(s, After(s, now, c), id)
  {
    var n := AudienceOnly(s, c.id, c.policy);
    assert After(s, now, c) == n;
    assert n.people.audiences.Keys == s.people.audiences.Keys + {c.id};
    NewAudiencePays(s, n, id);
  }

  lemma SuppressPays(s: Mail, now: int, c: Command, id: Id)
    requires c.Suppress? && StepSuppress(s, now, c).Done? && id in s.people.subscribers
    requires s.people.subscribers[id].suppressed
    ensures PaysFor(s, StepSuppress(s, now, c).mail, id)
  {
    ApplyKeepsSuppressed(s, c.subscriberId, c.reason, c.occurredAt, c.evidence, None, c.suppressionId, id);
    ApplyGrows(s, c.subscriberId, c.reason, c.occurredAt, c.evidence, None, c.suppressionId);
    ApplyLeavesConsents(s, c.subscriberId, c.reason, c.occurredAt, c.evidence, None, c.suppressionId);
    SuppressionPays(s, StepSuppress(s, now, c).mail, id);
  }

  lemma IngestPays(s: Mail, now: int, c: Command, id: Id)
    requires c.Ingest? && StepIngest(s, now, c).Done? && id in s.people.subscribers
    requires s.people.subscribers[id].suppressed
    ensures PaysFor(s, StepIngest(s, now, c).mail, id)
  {
    IngestKeepsSuppressed(s, now, c, id);
    IngestGrows(s, now, c);
    IngestLeavesConsents(s, now, c);
    SuppressionPays(s, StepIngest(s, now, c).mail, id);
  }

  lemma OptInPays(s: Mail, now: int, c: Command, id: Id)
    requires c.OptIn? && StepOptIn(s, now, c).Done? && id in s.people.subscribers && s.people.subscribers[id].suppressed
    ensures PaysFor(s, StepOptIn(s, now, c).mail, id)
  {
    var n := StepOptIn(s, now, c).mail;
    OptInKeepsSuppressed(s, now, c, id);
    OptInGrows(s, now, c);
    PeopleGrow(s.people, n.people);
    SameCost(s, n, id);
  }

  lemma ReactivatePays(s: Mail, now: int, c: Command, id: Id)
    requires c.Reactivate? && StepReactivate(s, now, c).Done? && c.subscriberId != id && id in s.people.subscribers
    requires s.people.subscribers[id].suppressed
    ensures PaysFor(s, StepReactivate(s, now, c).mail, id)
  {
    var n := StepReactivate(s, now, c).mail;
    ReactivateKeepsSuppressed(s, now, c, id);
    ReactivateGrows(s, now, c);
    PeopleGrow(s.people, n.people);
    SameCost(s, n, id);
  }

  lemma CampaignPays(s: Mail, now: int, c: Command, id: Id)
    requires OnCampaign(c) && Step(s, now, c).Done? && id in s.people.subscribers && s.people.subscribers[id].suppressed
    ensures PaysFor(s, After(s, now, c), id)
  {
    CampaignGrows(s, now, c);
    SameCost(s, After(s, now, c), id);
  }

  lemma OthersPay(s: Mail, now: int, c: Command, id: Id)
    requires Step(s, now, c).Done? && id in s.people.subscribers && s.people.subscribers[id].suppressed
    requires c.Reactivate? ==> c.subscriberId != id
    ensures PaysFor(s, After(s, now, c), id)
  {
    match c
    case CreateAudience(_, _) => AudiencePays(s, now, c, id);
    case OptIn(_, _, _, _, _) => OptInPays(s, now, c, id);
    case Reactivate(_, _, _, _) => ReactivatePays(s, now, c, id);
    case Suppress(_, _, _, _, _) => SuppressPays(s, now, c, id);
    case Ingest(_, _, _, _) => IngestPays(s, now, c, id);
    case _ => CampaignPays(s, now, c, id);
  }

  lemma ReactivationCosts(s: Mail, now: int, c: Command)
    requires c.Reactivate? && StepReactivate(s, now, c).Done?
    ensures Cost(s, c.subscriberId) == 2
  {
  }

  lemma TightTry(cap: nat, b: Books, call: Call, id: Id)
    requires Subscribers(b.mail) && Dated(b.mail) && Tight(cap, b, id)
    ensures Tight(cap, Try(cap, b, call), id)
  {
    if Commits(cap, b, call) {
      if call.command.Reactivate? && call.command.subscriberId == id {
        ReactivationIsRecorded(b.mail, call.now, call.command);
        ReactivationCosts(b.mail, call.now, call.command);
        assert false;
      } else {
        OthersPay(b.mail, call.now, call.command, id);
      }
    }
  }

  lemma {:induction false} TightForever(cap: nat, b: Books, calls: seq<Call>, id: Id)
    requires Subscribers(b.mail) && Dated(b.mail) && Tight(cap, b, id)
    ensures !ActiveIn(TryAll(cap, b, calls).mail, id)
    decreases |calls|
  {
    if calls != [] {
      TightTry(cap, b, calls[0], id);
      if Commits(cap, b, calls[0]) {
        StepKeepsSubscribers(b.mail, calls[0].now, calls[0].command);
        StepKeepsDated(b.mail, calls[0].now, calls[0].command);
      }
      TightForever(cap, Try(cap, b, calls[0]), calls[1..], id);
    }
  }

  // ------------------------------------------------------------------ with room

  lemma {:induction false} LaterThan(suppressions: map<Id, Suppression>, ids: set<Id>) returns (t: int)
    requires ids <= suppressions.Keys
    ensures forall k :: k in ids ==> suppressions[k].occurredAt < t
    decreases |ids|
  {
    t := 0;
    if ids != {} {
      var k :| k in ids;
      t := LaterThan(suppressions, ids - {k});
      if t <= suppressions[k].occurredAt { t := suppressions[k].occurredAt + 1; }
    }
  }

  ghost predicate Returnable(s: Mail, id: Id) {
    && Subscribers(s) && Dated(s) && id in s.people.subscribers && s.people.subscribers[id].suppressed
    && HasRoom(s, id)
  }

  /** Reactivation at once. */
  lemma ReturnsAtOnce(s: Mail, id: Id, a: Id) returns (call: Call)
    requires Returnable(s, id) && LatestReversible(s, id) && a in s.people.audiences
    ensures Step(s, call.now, call.command).Done? && Count(After(s, call.now, call.command)) == Count(s) + 1
    ensures ActiveIn(After(s, call.now, call.command), id)
  {
    var k := Latest(s.people.suppressions, id).value;
    var at := s.people.suppressions[k].occurredAt + 1;
    var receiptId := Unused(s.people.consents.Keys);
    var consent := Consent(true, false, s.people.audiences[a], ["updates"], at, true, true, "");
    call := Call(at, Reactivate(id, a, consent, receiptId));
    AfterReversible(s, at, call.command, k);
    ReactivationIsRecorded(s, at, call.command);
  }

  lemma SuppressionIsRecorded(s: Mail, now: int, c: Command)
    requires c.Suppress? && StepSuppress(s, now, c).Done? && c.suppressionId !in s.people.suppressions
    requires c.suppressionId in StepSuppress(s, now, c).mail.people.suppressions
    ensures Count(StepSuppress(s, now, c).mail) == Count(s) + 1
  {
    var n := StepSuppress(s, now, c).mail;
    assert n.people.suppressions.Keys == s.people.suppressions.Keys + {c.suppressionId};
    assert |n.people.suppressions| == |s.people.suppressions| + 1;
    assert n.people.subscribers.Keys == s.people.subscribers.Keys;
    assert |n.people.subscribers.Keys| == |s.people.subscribers.Keys|;
  }

  lemma ManualMeans(s: Mail, n: Mail, id: Id, t: int, k: Id)
    requires k !in s.people.suppressions && ManuallySuppressed(s, n, id, t, k)
    requires Latest(n.people.suppressions, id) == Some(k)
    ensures n.people.suppressions != s.people.suppressions && LatestReversible(n, id)
    ensures |n.people.suppressions| == |s.people.suppressions| + 1
  {
  }

  /** One more suppression, a manual one. */
  lemma SuppressAgain(s: Mail, id: Id) returns (call: Call)
    requires Returnable(s, id) && !LatestReversible(s, id)
    ensures Step(s, call.now, call.command).Done?
    ensures var n := After(s, call.now, call.command);
      Count(n) == Count(s) + 1 && Returnable(n, id) && LatestReversible(n, id)
        && n.people.audiences == s.people.audiences
  {
    var t := LaterThan(s.people.suppressions, s.people.suppressions.Keys);
    var k := Unused(s.people.suppressions.Keys);
    call := Call(t, Suppress(id, Manual, t, "", k));
    var n := After(s, t, call.command);
    ManualSuppression(s, t, id, t, "", k);
    ManualIsLatest(s, n, id, t, k);
    ManualMeans(s, n, id, t, k);
    assert Step(s, t, call.command) == StepSuppress(s, t, call.command);
    SuppressionIsRecorded(s, t, call.command);
    StepKeepsSubscribers(s, t, call.command);
    StepKeepsDated(s, t, call.command);
  }

  lemma AudienceFirst(s: Mail, a: Id)
    requires a !in s.people.audiences
    ensures Step(s, 0, CreateAudience(a, "")) == Done(AudienceOnly(s, a, ""))
    ensures Count(AudienceOnly(s, a, "")) == Count(s) + 1
  {
    assert |s.people.audiences[a := ""].Keys| == |s.people.audiences.Keys + {a}|;
  }

  lemma StillReturnable(s: Mail, id: Id, a: Id)
    requires Returnable(s, id)
    ensures Returnable(AudienceOnly(s, a, ""), id)
    ensures LatestReversible(AudienceOnly(s, a, ""), id) == LatestReversible(s, id)
  {
    SameSubscribers(s, AudienceOnly(s, a, ""));
    assert forall k :: k in s.people.consents ==> DatedAt(s, s.people.consents[k]);
    assert Dated(AudienceOnly(s, a, ""));
  }

  lemma ReactivateInto(cap: nat, b: Books, id: Id, a: Id) returns (calls: seq<Call>)
    requires Returnable(b.mail, id) && LatestReversible(b.mail, id) && a in b.mail.people.audiences
    requires b.Size() + 2 <= cap
    ensures ActiveIn(TryAll(cap, b, calls).mail, id)
  {
    var call := ReturnsAtOnce(b.mail, id, a);
    TryFirst(cap, b, call, []);
    calls := [call] + [];
  }

  lemma ReturnInto(cap: nat, b: Books, id: Id, a: Id) returns (calls: seq<Call>)
    requires Returnable(b.mail, id) && a in b.mail.people.audiences
    requires b.Size() + (if LatestReversible(b.mail, id) then 2 else 4) <= cap
    ensures ActiveIn(TryAll(cap, b, calls).mail, id)
  {
    if LatestReversible(b.mail, id) {
      calls := ReactivateInto(cap, b, id, a);
    } else {
      var call := SuppressAgain(b.mail, id);
      var rest := ReactivateInto(cap, Try(cap, b, call), id, a);
      TryFirst(cap, b, call, rest);
      calls := [call] + rest;
    }
  }

  lemma AudienceTried(cap: nat, b: Books, call: Call)
    requires call == Call(0, CreateAudience(0, "")) && 0 !in b.mail.people.audiences && b.Size() + 2 <= cap
    ensures Try(cap, b, call) == Books(AudienceOnly(b.mail, 0, ""), b.receipts + 1)
    ensures Try(cap, b, call).Size() == b.Size() + 2
  {
    AudienceFirst(b.mail, 0);
  }

  lemma ReturnIntoNew(cap: nat, b: Books, id: Id) returns (calls: seq<Call>)
    requires Returnable(b.mail, id) && b.mail.people.audiences == map[] && b.Size() + Cost(b.mail, id) <= cap
    ensures ActiveIn(TryAll(cap, b, calls).mail, id)
  {
    var create := Call(0, CreateAudience(0, ""));
    AudienceTried(cap, b, create);
    StillReturnable(b.mail, id, 0);
    var rest := ReturnInto(cap, Try(cap, b, create), id, 0);
    TryFirst(cap, b, create, rest);
    calls := [create] + rest;
  }

  lemma RoomReturns(cap: nat, b: Books, id: Id)
    requires Returnable(b.mail, id) && b.Size() + Cost(b.mail, id) <= cap
    ensures CanReturn(cap, b, id)
  {
    var calls;
    if a :| a in b.mail.people.audiences {
      calls := ReturnInto(cap, b, id, a);
    } else {
      assert b.mail.people.audiences == map[];
      calls := ReturnIntoNew(cap, b, id);
    }
    assert ActiveIn(TryAll(cap, b, calls).mail, id);
  }

  /** Main result: whatever suppressed them, and under whatever quota, a subscriber can become active again if and only
      if the store has room for one more consent, its suppressions can still be listed, after one more if the latest is
      a bounce, a complaint or a legal block, and the records of the return fit the quota. */
  lemma ReturnIff(cap: nat, b: Books, id: Id)
    requires Subscribers(b.mail) && Dated(b.mail)
    requires id in b.mail.people.subscribers && b.mail.people.subscribers[id].suppressed
    ensures CanReturn(cap, b, id) <==> HasRoom(b.mail, id) && b.Size() + Cost(b.mail, id) <= cap
  {
    if HasRoom(b.mail, id) && b.Size() + Cost(b.mail, id) <= cap {
      RoomReturns(cap, b, id);
    } else {
      forall calls ensures !ActiveIn(TryAll(cap, b, calls).mail, id) {
        if HasRoom(b.mail, id) {
          TightForever(cap, b, calls, id);
        } else {
          var sub := TryAllIsRun(cap, b, calls);
          ShutForever(b.mail, sub, id);
        }
      }
    }
  }
}
