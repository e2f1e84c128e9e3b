/** Where the records of a campaign come from: the calls that made them. */
module LetterlineOrigins {
  import opened Letterline
  import opened LetterlineRuns

  /** At `b` the call drafts version `v`: of its campaign and the campaign's audience, with the digest of its
      content. */
  ghost predicate DraftedAs(b: Mail, call: Call, v: Id, version: Version) {
    && call.command.DraftVersion? && Step(b, call.now, call.command).Done? && call.command.versionId == v
    && version.campaignId == version.hash.campaignId == call.command.campaignId
    && version.hash.content == call.command.content
    && version.campaignId in b.press.campaigns
    && version.hash.audienceId == b.press.campaigns[version.campaignId].audienceId
  }

  /** At `b` the call reviews a stored version with that hash, as `r`. */
  ghost predicate ReviewedAs(b: Mail, call: Call, r: Id, review: Review) {
    && call.command.ReviewVersion? && Step(b, call.now, call.command).Done? && call.command.reviewId == r
    && review.positive == call.command.positive && review.campaignId == call.command.basis.campaignId
    && review.versionId == call.command.basis.versionId && review.hash == call.command.basis.hash
    && review.versionId in b.press.versions && b.press.versions[review.versionId].hash == review.hash
  }

  /** At `b` the call approves, as `a`, what a stored positive review is about. */
  ghost predicate ApprovedAs(b: Mail, call: Call, a: Id, approval: Approval) {
    && call.command.Approve? && Step(b, call.now, call.command).Done? && call.command.approvalId == a
    && approval.campaignId == call.command.basis.campaignId && approval.versionId == call.command.basis.versionId
    && approval.hash == call.command.basis.hash && approval.reviewId == call.command.reviewId
    && approval.reviewId in b.press.reviews && b.press.reviews[approval.reviewId].positive
    && b.press.reviews[approval.reviewId].versionId == approval.versionId
    && b.press.reviews[approval.reviewId].hash == approval.hash
  }

  ghost predicate DraftedAt(calls: seq<Call>, v: Id, version: Version, m: int) {
    0 <= m < |calls| && DraftedAs(Run(EMPTY, calls[..m]), calls[m], v, version)
  }

  ghost predicate ReviewedAt(calls: seq<Call>, r: Id, review: Review, m: int) {
    0 <= m < |calls| && ReviewedAs(Run(EMPTY, calls[..m]), calls[m], r, review)
  }

  ghost predicate ApprovedAt(calls: seq<Call>, a: Id, approval: Approval, m: int) {
    0 <= m < |calls| && ApprovedAs(Run(EMPTY, calls[..m]), calls[m], a, approval)
  }

  // ------------------------------------------------------------- one command more

  /** Only its own command adds to each of the three. */
  ghost predicate AddsOnly(s: Mail, n: Mail, c: Command) {
    && (!c.DraftVersion? ==> n.press.versions == s.press.versions)
    && (!c.ReviewVersion? ==> n.press.reviews == s.press.reviews)
    && (!c.Approve? ==> n.press.approvals == s.press.approvals)
  }

  lemma DraftAdds(s: Mail, c: Command)
    requires c.DraftVersion? && StepDraft(s, c).Done?
    ensures AddsOnly(s, StepDraft(s, c).mail, c)
  {
  }

  lemma ReviewAdds(s: Mail, c: Command)
    requires c.ReviewVersion? && StepReview(s, c).Done?
    ensures AddsOnly(s, StepReview(s, c).mail, c)
  {
  }

  lemma ApproveAdds(s: Mail, c: Command)
    requires c.Approve? && StepApprove(s, c).Done?
    ensures AddsOnly(s, StepApprove(s, c).mail, c)
  {
  }

  lemma ScheduleAdds(s: Mail, now: int, c: Command)
    requires c.ScheduleCampaign? && StepSchedule(s, now, c).Done?
    ensures AddsOnly(s, StepSchedule(s, now, c).mail, c)
  {
  }

  lemma PlanAdds(s: Mail, c: Command)
    requires c.CreatePlan? && StepPlan(s, c).Done?
    ensures AddsOnly(s, StepPlan(s, c).mail, c)
  {
  }

  lemma StepAdds(s: Mail, now: int, c: Command)
    ensures AddsOnly(s, After(s, now, c), c)
  {
    if Step(s, now, c).Done? {
      match c
      case DraftVersion(_, _, _, _) => DraftAdds(s, c);
      case ReviewVersion(_, _, _) => ReviewAdds(s, c);
      case Approve(_, _, _) => ApproveAdds(s, c);
      case ScheduleCampaign(_, _, _) => ScheduleAdds(s, now, c);
      case CreatePlan(_, _, _) => PlanAdds(s, c);
      case CreateCampaign(_, _) =>
      case _ => OffCampaignLeavesPress(s, now, c);
    }
  }

  lemma NewVersion(s: Mail, call: Call, v: Id)
    requires v !in s.press.versions && v in After(s, call.now, call.command).press.versions
    ensures DraftedAs(s, call, v, After(s, call.now, call.command).press.versions[v])
  {
    StepAdds(s, call.now, call.command);
  }

  lemma NewReview(s: Mail, call: Call, r: Id)
    requires r !in s.press.reviews && r in After(s, call.now, call.command).press.reviews
    ensures ReviewedAs(s, call, r, After(s, call.now, call.command).press.reviews[r])
  {
    StepAdds(s, call.now, call.command);
  }

  lemma NewApproval(s: Mail, call: Call, a: Id)
    requires a !in s.press.approvals && a in After(s, call.now, call.command).press.approvals
    ensures ApprovedAs(s, call, a, After(s, call.now, call.command).press.approvals[a])
  {
    StepAdds(s, call.now, call.command);
  }

  // ------------------------------------------------------------------- whole runs

  /** Main result: every stored version was drafted by some call of the run, and its hash is of that call's content. */
  lemma {:induction false} VersionsWereDrafted(calls: seq<Call>, v: Id) returns (m: nat)
    requires v in Run(EMPTY, calls).press.versions
    ensures DraftedAt(calls, v, Run(EMPTY, calls).press.versions[v], m)
    decreases |calls|
  {
    if calls == [] {
      assert false;
    } else {
      var before, last := calls[..|calls| - 1], calls[|calls| - 1];
      var s := Run(EMPTY, before);
      assert calls == before + [last];
      RunThen(EMPTY, before, last);
      if v in s.press.versions {
        m := VersionsWereDrafted(before, v);
        StepGrows(s, last.now, last.command);
        assert before[..m] == calls[..m];
      } else {
        m := |before|;
        NewVersion(s, last, v);
      }
    }
  }

  lemma {:induction false} ReviewsWereGiven(calls: seq<Call>, r: Id) returns (m: nat)
    requires r in Run(EMPTY, calls).press.reviews
    ensures ReviewedAt(calls, r, Run(EMPTY, calls).press.reviews[r], m)
    decreases |calls|
  {
    if calls == [] {
      assert false;
    } else {
      var before, last := calls[..|calls| - 1], calls[|calls| - 1];
      var s := Run(EMPTY, before);
      assert calls == before + [last];
      RunThen(EMPTY, before, last);
      if r in s.press.reviews {
        m := ReviewsWereGiven(before, r);
        StepGrows(s, last.now, last.command);
        assert before[..m] == calls[..m];
      } else {
        m := |before|;
        NewReview(s, last, r);
      }
    }
  }

  lemma {:induction false} ApprovalsWereGiven(calls: seq<Call>, a: Id) returns (m: nat)
    requires a in Run(EMPTY, calls).press.approvals
    ensures ApprovedAt(calls, a, Run(EMPTY, calls).press.approvals[a], m)
    decreases |calls|
  {
    if calls == [] {
      assert false;
    } else {
      var before, last := calls[..|calls| - 1], calls[|calls| - 1];
      var s := Run(EMPTY, before);
      assert calls == before + [last];
      RunThen(EMPTY, before, last);
      if a in s.press.approvals {
        m := ApprovalsWereGiven(before, a);
        StepGrows(s, last.now, last.command);
        assert before[..m] == calls[..m];
      } else {
        m := |before|;
        NewApproval(s, last, a);
      }
    }
  }

  lemma {:induction false} RunSplits(s: Mail, calls: seq<Call>, m: nat)
    requires m <= |calls|
    ensures Run(s, calls) == Run(Run(s, calls[..m]), calls[m..])
    decreases |calls|
  {
    if m > 0 {
      RunSplits(After(s, calls[0].now, calls[0].command), calls[1..], m - 1);
      assert calls[..m][1..] == calls[1..][..m - 1] && calls[m..] == calls[1..][m - 1..];
    } else {
      assert calls[m..] == calls && calls[..m] == [];
    }
  }

  /** The content goes through the three calls: it is drafted as version `v` of the campaign, then reviewed
      positively, and that review then leads to its approval. */
  ghost predicate Passes(draft: Command, review: Command, approve: Command, id: Id, v: Id, content: string) {
    && draft.DraftVersion? && draft.campaignId == id && draft.versionId == v && draft.content == content
    && review.ReviewVersion? && review.positive && review.basis.versionId == v && review.basis.hash.content == content
    && approve.Approve? && approve.basis.versionId == v && approve.basis.hash.content == content
    && approve.reviewId == review.reviewId
  }

  /** Main result: the content of a campaign that is approved, scheduled or planned was drafted for it, was then
      reviewed positively, and was then approved on that review, each by an accepted call of the run. */
  lemma ReleasedContentWasReviewed(calls: seq<Call>, id: Id) returns (d: nat, r: nat, a: nat)
    requires id in Run(EMPTY, calls).press.campaigns && Released(Run(EMPTY, calls).press.campaigns[id].state)
    ensures var k := Run(EMPTY, calls).press.campaigns[id];
      && d < r < a < |calls| && k.versionId.Some? && k.hash.Some?
      && Passes(calls[d].command, calls[r].command, calls[a].command, id, k.versionId.value, k.hash.value.content)
      && (forall m :: m in {d, r, a} ==> Step(Run(EMPTY, calls[..m]), calls[m].now, calls[m].command).Done?)
  {
    var s := Run(EMPTY, calls);
    OnlyReviewedContentIsReleased(calls, id);
    var k := s.press.campaigns[id];
    var approval := s.press.approvals[k.approvalId.value];
    a := ApprovalsWereGiven(calls, k.approvalId.value);
    var atApproval := Run(EMPTY, calls[..a]);
    r := ReviewsWereGiven(calls[..a], approval.reviewId);
    assert calls[..a][..r] == calls[..r];
    var review := atApproval.press.reviews[approval.reviewId];
    d := VersionsWereDrafted(calls[..r], review.versionId);
    assert calls[..r][..d] == calls[..d];
    RunSplits(EMPTY, calls, r);
    RunsGrow(Run(EMPTY, calls[..r]), calls[r..]);
  }
}
