/** Exactly when each command on member-visible records is accepted, and what it leaves. */
module MembershipEffects {
  import opened Options
  import opened Sorting
  import opened Membership

  // ------------------------------------------------------------- members and places

  /** `k` is an active membership of `p`, of user `x`. */
  ghost predicate Joins(rs: Records, k: Id, p: Id, x: Ref) {
    && k in rs && p in rs && rs[k].content.kind == Member(Some(x)) && rs[k].content.state == Active
    && rs[k].content.parentId == Some(p) && rs[k].content.area == rs[p].content.area
  }

  ghost predicate IsMember(rs: Records, p: Id, x: Ref) {
    exists k :: Joins(rs, k, p, x)
  }

  ghost predicate Rises(refs: seq<Ref>) {
    forall i, j :: 0 <= i < j < |refs| ==> refs[i] < refs[j]
  }

  /** The list names the members of `p`, each once and in order. */
  ghost predicate ListsMembers(rs: Records, p: Id, refs: seq<Ref>) {
    Rises(refs) && forall x :: x in refs <==> IsMember(rs, p, x)
  }

  /** The same with `identity` as one more. */
  ghost predicate ListsMembersAnd(rs: Records, p: Id, identity: Option<Ref>, refs: seq<Ref>) {
    Rises(refs) && forall x :: x in refs <==> IsMember(rs, p, x) || identity == Some(x)
  }

  /** Nobody who left the workspace is still a member. */
  ghost predicate AllPresent(rs: Records, p: Id, members: set<Ref>) {
    forall x :: IsMember(rs, p, x) ==> x in members
  }

  /** A record of the same module that names `p` as its parent, or a proposal about `p` or about such a record. */
  ghost predicate Under(rs: Records, k: Id, p: Id) {
    && k in rs && p in rs && k != p && rs[k].content.area == rs[p].content.area
    && (rs[k].content.parentId == Some(p) || exists t :: IsAbout(rs, k, t, p))
  }

  ghost predicate IsAbout(rs: Records, k: Id, t: Id, p: Id)
    requires k in rs && p in rs
  {
    && rs[k].content.kind == Proposal(t) && t in rs && rs[t].content.area == rs[p].content.area
    && (t == p || rs[t].content.parentId == Some(p))
  }

  lemma MembersAreIdentities(rs: Records, p: Id)
    requires p in rs
    ensures forall x :: x in Identities(rs, rs[p].content.area, p) <==> IsMember(rs, p, x)
  {
    forall x ensures x in Identities(rs, rs[p].content.area, p) <==> IsMember(rs, p, x) {
      if x in Identities(rs, rs[p].content.area, p) {
        var k :| k in rs && IsActiveMember(rs, k, rs[p].content.area, p) && rs[k].content.kind.identity == Some(x);
        assert Joins(rs, k, p, x);
      }
      if k :| Joins(rs, k, p, x) {
        assert IsActiveMember(rs, k, rs[p].content.area, p);
      }
    }
  }

  lemma ActiveRefsList(rs: Records, p: Id)
    requires p in rs
    ensures ListsMembers(rs, p, ActiveRefs(rs, rs[p].content.area, p))
  {
    MembersAreIdentities(rs, p);
  }

  lemma UnderIsBelow(rs: Records, k: Id, p: Id)
    requires p in rs
    ensures Under(rs, k, p) <==> Below(rs, k, rs[p].content.area, p)
  {
    if Below(rs, k, rs[p].content.area, p) && rs[k].content.parentId != Some(p) {
      assert IsAbout(rs, k, rs[k].content.kind.targetId, p);
    }
  }

  ghost predicate IsRoot(rs: Records, p: Id) {
    p in rs && rs[p].content.kind == Parent && rs[p].content.area != Tables
  }

  /** Main result: after any run whatever belongs to a meeting, course or space names exactly its members. */
  lemma EverythingNamesItsMembers(calls: seq<Call>, p: Id, k: Id)
    requires var rs := Run(map[], calls); IsRoot(rs, p) && (k == p || Under(rs, k, p))
    ensures var rs := Run(map[], calls); ListsMembers(rs, p, rs[k].content.refs)
  {
    RunsKeepInv(map[], calls);
    var rs := Run(map[], calls);
    assert Agrees(rs, p);
    UnderIsBelow(rs, k, p);
    ActiveRefsList(rs, p);
  }

  // ------------------------------------------------------------------ new records

  /** A first version, with the hash of what it says. */
  ghost predicate IsNew(r: Record, area: Area, kind: Kind, parentId: Option<Id>, body: string) {
    && r.hash == r.content && r.content.area == area && r.content.kind == kind && r.content.parentId == parentId
    && r.content.state == Active && r.content.body == body && r.content.version == 1
  }

  lemma ParentExactly(rs: Records, members: set<Ref>, c: Command)
    requires c.CreateParent?
    ensures Step(rs, members, c).Done? <==> c.id !in rs
    ensures Step(rs, members, c).Done? ==>
      var n := After(rs, members, c);
      && c.id in n && n == rs[c.id := n[c.id]] && IsNew(n[c.id], c.area, Parent, None, c.body)
      && n[c.id].content.refs == []
  {
  }

  lemma ChildExactly(rs: Records, members: set<Ref>, c: Command)
    requires c.AddChild?
    ensures StepAddChild(rs, members, c).Done? <==>
      IsRoot(rs, c.parentId) && AllPresent(rs, c.parentId, members) && c.id !in rs
    ensures StepAddChild(rs, members, c).Done? ==>
      var n := StepAddChild(rs, members, c).records;
      && c.parentId in rs && c.id in n && n == rs[c.id := n[c.id]]
      && IsNew(n[c.id], rs[c.parentId].content.area, Child, Some(c.parentId), c.body)
      && ListsMembers(rs, c.parentId, n[c.id].content.refs)
  {
    if c.parentId in rs {
      MembersAreIdentities(rs, c.parentId);
      ActiveRefsList(rs, c.parentId);
    }
  }

  // --------------------------------------------------------------------- joining

  /** A named user must be in the workspace and, but for meetings, new; only a meeting has nameless guests. */
  ghost predicate MayJoin(rs: Records, members: set<Ref>, p: Id, identity: Option<Ref>)
    requires p in rs
  {
    match identity
    case None => rs[p].content.area == Meetings
    case Some(x) => x in members && (rs[p].content.area == Meetings || !IsMember(rs, p, x))
  }

  lemma JoinExactly(rs: Records, members: set<Ref>, c: Command)
    requires c.AddMember?
    ensures StepAddMember(rs, members, c).Done? <==>
      && IsRoot(rs, c.parentId) && AllPresent(rs, c.parentId, members)
      && MayJoin(rs, members, c.parentId, c.identity) && c.id !in rs
  {
    if c.parentId in rs { MembersAreIdentities(rs, c.parentId); }
  }

  /** The record with that state, list and text: one version more, with the hash of what it now says. */
  ghost predicate Became(was: Record, now: Record, state: State, refs: seq<Ref>, body: string) {
    && now.hash == now.content
    && now.content == was.content.(state := state, refs := refs, body := body, version := was.content.version + 1)
  }

  /** The parent is given the list, and so is a record under it that has another; all else stays. */
  ghost predicate GivenList(rs: Records, n: Records, k: Id, p: Id, refs: seq<Ref>)
    requires k in rs
  {
    && k in n
    && if k == p || (Under(rs, k, p) && rs[k].content.refs != refs)
       then Became(rs[k], n[k], rs[k].content.state, refs, rs[k].content.body) else n[k] == rs[k]
  }

  lemma SynchronizedGives(rs: Records, k: Id, p: Id, refs: seq<Ref>)
    requires k in rs && p in rs
    ensures GivenList(rs, Synchronized(rs, rs[p].content.area, p, refs), k, p, refs)
  {
    UnderIsBelow(rs, k, p);
  }

  /** Main result: whoever joins is added as a membership with the new list of members, which the parent and everything
      under it are given; nothing else changes. */
  lemma JoinLeaves(rs: Records, members: set<Ref>, c: Command) returns (refs: seq<Ref>)
    requires c.AddMember? && StepAddMember(rs, members, c).Done?
    ensures var n := StepAddMember(rs, members, c).records;
      && c.parentId in rs && ListsMembersAnd(rs, c.parentId, c.identity, refs)
      && n.Keys == rs.Keys + {c.id} && n[c.id].content.refs == refs
      && IsNew(n[c.id], rs[c.parentId].content.area, Member(c.identity), Some(c.parentId), c.body)
      && forall k :: k in rs ==> GivenList(rs, n, k, c.parentId, refs)
  {
    var area := rs[c.parentId].content.area;
    refs := Ascending(Identities(rs, area, c.parentId) + if c.identity.Some? then {c.identity.value} else {});
    MembersAreIdentities(rs, c.parentId);
    forall k | k in rs ensures GivenList(rs, Synchronized(rs, area, c.parentId, refs), k, c.parentId, refs) {
      SynchronizedGives(rs, k, c.parentId, refs);
    }
  }

  // -------------------------------------------------------------------- updating

  /** The record is a membership or other record of a meeting, course or space. */
  ghost predicate HasRoot(rs: Records, id: Id, p: Id) {
    && id in rs && p in rs && rs[id].content.parentId == Some(p) && rs[p].content.kind == Parent
    && (rs[id].content.kind == Child || rs[id].content.kind.Member?) && rs[id].content.area == rs[p].content.area
  }

  lemma UpdateExactly(rs: Records, members: set<Ref>, c: Command)
    requires c.UpdateChild?
    ensures StepUpdateChild(rs, members, c).Done? <==>
      && (exists p :: HasRoot(rs, c.id, p) && AllPresent(rs, p, members))
      && (c.expectedVersion.Some? ==> c.expectedVersion.value == rs[c.id].content.version)
  {
    if c.id in rs && rs[c.id].content.parentId.Some? && rs[c.id].content.parentId.value in rs {
      var p := rs[c.id].content.parentId.value;
      MembersAreIdentities(rs, p);
      if StepUpdateChild(rs, members, c).Done? { assert HasRoot(rs, c.id, p) && AllPresent(rs, p, members); }
    }
  }

  /** Main result: an update stores the new text and, but for memberships, the new state, with the parent's members
      and one version more; the old text is gone, and nothing else changes. */
  lemma UpdateLeaves(rs: Records, members: set<Ref>, c: Command) returns (p: Id)
    requires c.UpdateChild? && StepUpdateChild(rs, members, c).Done?
    ensures var n := StepUpdateChild(rs, members, c).records;
      && HasRoot(rs, c.id, p) && c.id in n && n == rs[c.id := n[c.id]] && ListsMembers(rs, p, n[c.id].content.refs)
      && Became(rs[c.id], n[c.id], if rs[c.id].content.kind.Member? then rs[c.id].content.state else c.state,
           n[c.id].content.refs, c.body)
  {
    p := rs[c.id].content.parentId.value;
    ActiveRefsList(rs, p);
  }

  // ------------------------------------------------------------------- proposals

  /** The meeting, course or space whose members see a record about `t`. */
  ghost predicate Shows(rs: Records, t: Id, p: Id) {
    && t in rs && p in rs && rs[p].content.kind == Parent && rs[p].content.area == rs[t].content.area
    && if rs[t].content.kind == Parent then p == t else rs[t].content.parentId == Some(p)
  }

  /** A community proposal is about its space or a record of it. */
  ghost predicate InItsSpace(rs: Records, c: Command)
    requires c.QueueProposal? && c.targetId in rs
  {
    c.area == Community ==>
      && c.spaceId in rs && rs[c.spaceId].content.kind == Parent && rs[c.spaceId].content.area == Community
      && (c.targetId == c.spaceId || rs[c.targetId].content.parentId == Some(c.spaceId))
  }

  ghost predicate MayShow(rs: Records, members: set<Ref>, t: Id) {
    exists p :: Shows(rs, t, p) && AllPresent(rs, p, members)
  }

  lemma ProposalExactly(rs: Records, members: set<Ref>, c: Command)
    requires c.QueueProposal?
    ensures StepQueueProposal(rs, members, c).Done? <==>
      && c.targetId in rs && InItsSpace(rs, c) && c.id !in rs
      && (rs[c.targetId].content.area != Tables ==> MayShow(rs, members, c.targetId))
  {
    if c.targetId in rs {
      var root := RootOf(rs, c.targetId);
      if root.Some? && root.value in rs { MembersAreIdentities(rs, root.value); }
      forall p: Id | Shows(rs, c.targetId, p) ensures root == Some(p) { }
      if StepQueueProposal(rs, members, c).Done? && rs[c.targetId].content.area != Tables {
        assert Shows(rs, c.targetId, root.value) && AllPresent(rs, root.value, members);
      }
    }
  }

  /** A proposal is stored for the members who see its target. */
  lemma ProposalLeaves(rs: Records, members: set<Ref>, c: Command)
    requires c.QueueProposal? && StepQueueProposal(rs, members, c).Done?
    ensures var n := StepQueueProposal(rs, members, c).records;
      && c.targetId in rs && c.id in n && n == rs[c.id := n[c.id]]
      && IsNew(n[c.id], c.area, Proposal(c.targetId), None, c.body)
      && (rs[c.targetId].content.area == Tables ==> n[c.id].content.refs == [])
      && (rs[c.targetId].content.area != Tables ==>
           forall p :: Shows(rs, c.targetId, p) ==> ListsMembers(rs, p, n[c.id].content.refs))
  {
    forall p | Shows(rs, c.targetId, p) && rs[c.targetId].content.area != Tables
      ensures ListsMembers(rs, p, StepQueueProposal(rs, members, c).records[c.id].content.refs) {
      ActiveRefsList(rs, p);
    }
  }
}
