/** Meetings, courses and community spaces copy their member list onto every record below them, AI proposals
    included. */
module Membership {
  import opened Options
  import opened Sorting

  type Id = nat
  /** A workspace user; references are kept in one fixed order. */
  type Ref = nat

  /** `Tables` stands for the modules whose records have no members. */
  datatype Area = Tables | Meetings | Learning | Community

  /** A meeting, course or space; one of its memberships; any other record below it; an AI proposal about a record. */
  datatype Kind = Parent | Member(identity: Option<Ref>) | Child | Proposal(targetId: Id)
  datatype State = Active | Redacted | Hidden | Withdrawn
  /** `hash`: the content hash, kept as what it digests. */
  datatype Record = Record(content: Content, hash: Content)
  datatype Content = Content(area: Area, kind: Kind, parentId: Option<Id>, state: State, refs: seq<Ref>, body: string,
      version: nat)

  type Records = map<Id, Record>

  /** `members`: the workspace's members at the time of the call. */
  datatype Call = Call(members: set<Ref>, command: Command)

  datatype Command =
    | CreateParent(id: Id, area: Area, body: string)
    | AddMember(id: Id, parentId: Id, identity: Option<Ref>, body: string)
    | AddChild(id: Id, parentId: Id, body: string)
    | UpdateChild(id: Id, expectedVersion: Option<nat>, state: State, body: string)
    | QueueProposal(id: Id, area: Area, spaceId: Id, targetId: Id, body: string)

  datatype Refusal = NotFound | IdTaken | NotAMember | Duplicate | Stale | NoMembers | WrongSpace
  datatype Outcome = Done(records: Records) | Refused(reason: Refusal)

  // ------------------------------------------------------------ record versions

  function Fresh(area: Area, kind: Kind, parentId: Option<Id>, refs: seq<Ref>, body: string): Record {
    var content := Content(area, kind, parentId, Active, refs, body, 1);
    Record(content, content)
  }

  /** `update`: one version more, and the hash of the new content. */
  function Touch(r: Record, state: State, refs: seq<Ref>, body: string): Record {
    var content := r.content.(state := state, refs := refs, body := body, version := r.content.version + 1);
    Record(content, content)
  }

  // ----------------------------------------------------------------- membership

  predicate IsParent(rs: Records, id: Id) {
    id in rs && rs[id].content.kind.Parent?
  }

  predicate IsActiveMember(rs: Records, k: Id, area: Area, parentId: Id) {
    k in rs && rs[k].content.area == area && rs[k].content.kind.Member? && rs[k].content.state.Active?
      && rs[k].content.parentId == Some(parentId)
  }

  function Identities(rs: Records, area: Area, parentId: Id): set<Ref> {
    set k | k in rs && IsActiveMember(rs, k, area, parentId) && rs[k].content.kind.identity.Some? ::
      rs[k].content.kind.identity.value
  }

  /** `activeMembershipRefs`: the members' references, each once, in order. */
  function ActiveRefs(rs: Records, area: Area, parentId: Id): seq<Ref> {
    Ascending(Identities(rs, area, parentId))
  }

  /** `recordBelongsToParent`. */
  predicate Below(rs: Records, k: Id, area: Area, parentId: Id) {
    && k in rs && rs[k].content.area == area && k != parentId
    && (rs[k].content.parentId == Some(parentId)
        || (rs[k].content.kind.Proposal?
            && var t := rs[k].content.kind.targetId;
            t in rs && rs[t].content.area == area && (t == parentId || rs[t].content.parentId == Some(parentId))))
  }

  function WithRefs(r: Record, refs: seq<Ref>): Record {
    Touch(r, r.content.state, refs, r.content.body)
  }

  /** `synchronizeMembershipVisibility`: the parent always, a record below it only when its copy differs. */
  function Synchronized(rs: Records, area: Area, parentId: Id, refs: seq<Ref>): (n: Records)
    ensures n.Keys == rs.Keys
  {
    map k | k in rs ::
      if k == parentId || (Below(rs, k, area, parentId) && rs[k].content.refs != refs) then WithRefs(rs[k], refs)
      else rs[k]
  }

  /** The parent a proposal about `t` takes its visibility from, if `t`'s module has members. */
  function RootOf(rs: Records, t: Id): Option<Id>
    requires t in rs
  {
    if rs[t].content.kind.Parent? then Some(t) else rs[t].content.parentId
  }

  // ------------------------------------------------------------------- commands

  function StepAddMember(rs: Records, members: set<Ref>, c: Command): Outcome
    requires c.AddMember?
  {
    if !IsParent(rs, c.parentId) then Refused(NotFound)
    else
      var area := rs[c.parentId].content.area;
      var current := Identities(rs, area, c.parentId);
      var refs := Ascending(current + if c.identity.Some? then {c.identity.value} else {});
      if area.Tables? then Refused(NoMembers)
      else if !(current <= members) then Refused(NotAMember)
      else if c.identity.None? && !area.Meetings? then Refused(NotAMember)
      else if c.identity.Some? && c.identity.value !in members then Refused(NotAMember)
      else if c.identity.Some? && !area.Meetings? && c.identity.value in current then Refused(Duplicate)
      else if c.id in rs then Refused(IdTaken)
      else
        var member := Fresh(area, Member(c.identity), Some(c.parentId), refs, c.body);
        Done(Synchronized(rs, area, c.parentId, refs)[c.id := member])
  }

  function StepAddChild(rs: Records, members: set<Ref>, c: Command): Outcome
    requires c.AddChild?
  {
    if !IsParent(rs, c.parentId) then Refused(NotFound)
    else
      var area := rs[c.parentId].content.area;
      if area.Tables? then Refused(NoMembers)
      else if !(Identities(rs, area, c.parentId) <= members) then Refused(NotAMember)
      else if c.id in rs then Refused(IdTaken)
      else Done(rs[c.id := Fresh(area, Child, Some(c.parentId), ActiveRefs(rs, area, c.parentId), c.body)])
  }

  /** Redacting a transcript, hiding a post, changing a reaction or a role. */
  function StepUpdateChild(rs: Records, members: set<Ref>, c: Command): Outcome
    requires c.UpdateChild?
  {
    if c.id !in rs || !(rs[c.id].content.kind.Child? || rs[c.id].content.kind.Member?)
       || rs[c.id].content.parentId.None?
       || !IsParent(rs, rs[c.id].content.parentId.value) then Refused(NotFound)
    else
      var r := rs[c.id];
      var area, parentId := r.content.area, r.content.parentId.value;
      if rs[parentId].content.area != area then Refused(NotFound)
      else if !(Identities(rs, area, parentId) <= members) then Refused(NotAMember)
      else if c.expectedVersion.Some? && c.expectedVersion.value != r.content.version then Refused(Stale)
      else Done(rs[c.id :=
        Touch(r, if r.content.kind.Member? then r.content.state else c.state, ActiveRefs(rs, area, parentId), c.body)])
  }

  /** A community proposal names its space and a target in it; `proposalBinding` checks no other module's target. */
  predicate BoundToSpace(rs: Records, area: Area, spaceId: Id, targetId: Id)
    requires targetId in rs
  {
    area.Community? ==>
      && IsParent(rs, spaceId) && rs[spaceId].content.area.Community?
      && (targetId == spaceId || rs[targetId].content.parentId == Some(spaceId))
  }

  /** `queueGroundedProposal`. The target is looked up by id alone: it may belong to another module than the
      proposal, unless that is the community module. */
  function StepQueueProposal(rs: Records, members: set<Ref>, c: Command): Outcome
    requires c.QueueProposal?
  {
    if c.targetId !in rs then Refused(NotFound)
    else if !BoundToSpace(rs, c.area, c.spaceId, c.targetId) then Refused(WrongSpace)
    else
      var about := rs[c.targetId].content.area;
      var root := RootOf(rs, c.targetId);
      if about.Tables? then
        if c.id in rs then Refused(IdTaken) else Done(rs[c.id := Fresh(c.area, Proposal(c.targetId), None, [], c.body)])
      else if root.None? || !IsParent(rs, root.value) || rs[root.value].content.area != about then Refused(NotFound)
      else if !(Identities(rs, about, root.value) <= members) then Refused(NotAMember)
      else if c.id in rs then Refused(IdTaken)
      else Done(rs[c.id := Fresh(c.area, Proposal(c.targetId), None, ActiveRefs(rs, about, root.value), c.body)])
  }

  function Step(rs: Records, members: set<Ref>, c: Command): Outcome {
    match c
    case CreateParent(id, area, body) =>
      if id in rs then Refused(IdTaken) else Done(rs[id := Fresh(area, Parent, None, [], body)])
    case AddMember(_, _, _, _) => StepAddMember(rs, members, c)
    case AddChild(_, _, _) => StepAddChild(rs, members, c)
    case UpdateChild(_, _, _, _) => StepUpdateChild(rs, members, c)
    case QueueProposal(_, _, _, _, _) => StepQueueProposal(rs, members, c)
  }

  function After(rs: Records, members: set<Ref>, c: Command): Records {
    match Step(rs, members, c) case Done(next) => next case Refused(_) => rs
  }

  function Run(rs: Records, calls: seq<Call>): Records
    decreases |calls|
  {
    if calls == [] then rs else Run(After(rs, calls[0].members, calls[0].command), calls[1..])
  }

  // ----------------------------------------------------------------- invariants

  /** Records below a parent name an existing parent of their module; proposals name an existing record that is not a
      proposal, community proposals a community record. */
  ghost predicate Placed(rs: Records, k: Id)
    requires k in rs
  {
    var c := rs[k].content;
    match c.kind
    case Parent => c.parentId.None?
    case Member(_) =>
      c.parentId.Some? && IsParent(rs, c.parentId.value) && rs[c.parentId.value].content.area == c.area
        && !c.area.Tables?
    case Child =>
      c.parentId.Some? && IsParent(rs, c.parentId.value) && rs[c.parentId.value].content.area == c.area
        && !c.area.Tables?
    case Proposal(t) =>
      && c.parentId.None? && t in rs && (!rs[t].content.area.Tables? ==> !rs[t].content.kind.Proposal?)
      && (c.area.Community? ==> rs[t].content.area.Community?)
  }

  /** The parent and every record below it carry exactly the references of its active memberships. */
  ghost predicate Agrees(rs: Records, p: Id)
    requires IsParent(rs, p)
  {
    var area := rs[p].content.area;
    !area.Tables? ==>
      && rs[p].content.refs == ActiveRefs(rs, area, p)
      && forall k :: Below(rs, k, area, p) ==> rs[k].content.refs == ActiveRefs(rs, area, p)
  }

  ghost predicate Honest(rs: Records) {
    forall k :: k in rs ==> rs[k].hash == rs[k].content && rs[k].content.version >= 1
  }

  ghost predicate Inv(rs: Records) {
    && (forall k :: k in rs ==> Placed(rs, k))
    && (forall p :: IsParent(rs, p) ==> Agrees(rs, p))
    && Honest(rs)
  }

  // ------------------------------------------------ one record added or replaced

  /** Everything but one record `k` is as before, and `k` keeps its place. */
  ghost predicate Keeps(rs: Records, n: Records, k: Id) {
    && k in n && n == rs[k := n[k]]
    && (k in rs ==> n[k].content.(state := rs[k].content.state, refs := rs[k].content.refs, body := rs[k].content.body,
                                  version := rs[k].content.version) == rs[k].content)
  }

  lemma KeepsBelow(rs: Records, n: Records, k: Id, j: Id, area: Area, p: Id)
    requires Keeps(rs, n, k) && j in rs && (forall x :: x in rs ==> Placed(rs, x))
    ensures Below(n, j, area, p) <==> Below(rs, j, area, p)
  {
    assert Placed(rs, j);
  }

  lemma KeepsIdentities(rs: Records, n: Records, k: Id, area: Area, p: Id)
    requires Keeps(rs, n, k) && (k in rs ==> n[k].content.kind.Member? ==> n[k].content.state == rs[k].content.state)
    requires k in rs || !n[k].content.kind.Member?
    ensures Identities(n, area, p) == Identities(rs, area, p)
  {
    forall x ensures IsActiveMember(n, x, area, p) <==> IsActiveMember(rs, x, area, p) { }
    assert forall x :: IsActiveMember(rs, x, area, p) ==> n[x].content.kind == rs[x].content.kind;
  }

  lemma KeepsPlaced(rs: Records, n: Records, k: Id)
    requires Keeps(rs, n, k) && (forall x :: x in rs ==> Placed(rs, x)) && (k in rs || Placed(n, k))
    ensures forall x :: x in n ==> Placed(n, x)
  {
    forall x | x in n ensures Placed(n, x) {
      if x in rs { assert Placed(rs, x); }
    }
  }

  /** A record written with its parent's current references leaves every parent in agreement. */
  lemma WrittenKeepsInv(rs: Records, n: Records, k: Id)
    requires Inv(rs) && Keeps(rs, n, k) && n[k].hash == n[k].content && n[k].content.version >= 1
    requires k in rs ==> n[k].content.kind.Member? ==> n[k].content.state == rs[k].content.state
    requires k in rs || (!n[k].content.kind.Member? && Placed(n, k))
    requires k in rs ==> !n[k].content.kind.Parent?
    requires n[k].content.kind.Parent? ==> n[k].content.refs == []
    requires forall p :: IsParent(rs, p) && Below(n, k, rs[p].content.area, p) ==>
      n[k].content.refs == ActiveRefs(rs, rs[p].content.area, p)
    ensures Inv(n)
  {
    KeepsPlaced(rs, n, k);
    forall p | IsParent(n, p) ensures Agrees(n, p) {
      if p in rs {
        var area := rs[p].content.area;
        assert Agrees(rs, p);
        KeepsIdentities(rs, n, k, area, p);
        if !area.Tables? {
          forall j | Below(n, j, area, p) ensures n[j].content.refs == ActiveRefs(n, area, p) {
            if j != k { KeepsBelow(rs, n, k, j, area, p); }
          }
        }
      } else {
        NewParentIsEmpty(rs, n, p);
      }
    }
  }

  lemma NewParentIsEmpty(rs: Records, n: Records, p: Id)
    requires (forall x :: x in rs ==> Placed(rs, x)) && p !in rs && Keeps(rs, n, p) && n[p].content.kind.Parent?
    ensures ActiveRefs(n, n[p].content.area, p) == []
    ensures forall j :: !Below(n, j, n[p].content.area, p)
  {
    forall j ensures !Below(n, j, n[p].content.area, p) && !IsActiveMember(n, j, n[p].content.area, p) {
      if j in rs { assert Placed(rs, j); }
    }
    assert Identities(n, n[p].content.area, p) == {};
  }

  // -------------------------------------------------------------- adding a member

  lemma SynchronizedIdentities(rs: Records, area: Area, p: Id, refs: seq<Ref>, area': Area, q: Id)
    ensures Identities(Synchronized(rs, area, p, refs), area', q) == Identities(rs, area', q)
  {
    var n := Synchronized(rs, area, p, refs);
    forall x ensures IsActiveMember(n, x, area', q) <==> IsActiveMember(rs, x, area', q) { }
    assert forall x :: IsActiveMember(rs, x, area', q) ==> n[x].content.kind == rs[x].content.kind;
  }

  /** No record is below two parents, and a parent is below none. */
  lemma OneParent(rs: Records, j: Id, p: Id, q: Id)
    requires (forall x :: x in rs ==> Placed(rs, x)) && IsParent(rs, p) && IsParent(rs, q)
    requires !rs[p].content.area.Tables? && !rs[q].content.area.Tables?
    requires Below(rs, j, rs[p].content.area, p) && Below(rs, j, rs[q].content.area, q)
    ensures p == q
  {
    assert Placed(rs, j);
  }

  lemma ParentIsTop(rs: Records, j: Id, p: Id)
    requires (forall x :: x in rs ==> Placed(rs, x)) && IsParent(rs, p) && IsParent(rs, j)
    ensures !Below(rs, j, rs[p].content.area, p)
  {
    assert Placed(rs, j);
  }

  lemma ParentBelowNone(rs: Records, j: Id, q: Id)
    requires (forall x :: x in rs ==> Placed(rs, x)) && IsParent(rs, q) && Below(rs, j, rs[q].content.area, q)
    ensures !IsParent(rs, j)
  {
    assert Placed(rs, j);
  }

  lemma MemberIdentities(m: Records, n: Records, k: Id, area: Area, p: Id)
    requires k !in m && k in n && n == m[k := n[k]] && n[k].content.kind.Member?
    ensures Identities(n, area, p) == Identities(m, area, p)
            + (if IsActiveMember(n, k, area, p) && n[k].content.kind.identity.Some?
               then {n[k].content.kind.identity.value} else {})
  {
    forall x ensures x != k ==> (IsActiveMember(n, x, area, p) <==> IsActiveMember(m, x, area, p)) { }
    var extra := if IsActiveMember(n, k, area, p) && n[k].content.kind.identity.Some?
                 then {n[k].content.kind.identity.value} else {};
    forall r ensures r in Identities(n, area, p) <==> r in Identities(m, area, p) + extra {
      if r in Identities(m, area, p) {
        var x :| x in m && IsActiveMember(m, x, area, p) && m[x].content.kind.identity == Some(r);
        assert n[x] == m[x];
        assert IsActiveMember(n, x, area, p) && n[x].content.kind.identity == Some(r);
      }
      if r in extra { assert IsActiveMember(n, k, area, p) && n[k].content.kind.identity == Some(r); }
    }
  }

  /** What an accepted membership command does. */
  ghost predicate Joins(rs: Records, n: Records, p: Id, k: Id, identity: Option<Ref>, body: string) {
    && IsParent(rs, p) && !rs[p].content.area.Tables? && k !in rs
    && var area := rs[p].content.area;
    var refs := Ascending(Identities(rs, area, p) + if identity.Some? then {identity.value} else {});
    n == Synchronized(rs, area, p, refs)[k := Fresh(area, Member(identity), Some(p), refs, body)]
  }

  lemma JoinedIdentities(rs: Records, n: Records, p: Id, k: Id, identity: Option<Ref>, body: string, area: Area, q: Id)
    requires Joins(rs, n, p, k, identity, body)
    ensures Identities(n, area, q) == Identities(rs, area, q)
            + (if q == p && area == rs[p].content.area && identity.Some? then {identity.value} else {})
  {
    var refs := n[k].content.refs;
    var m := Synchronized(rs, rs[p].content.area, p, refs);
    SynchronizedIdentities(rs, rs[p].content.area, p, refs, area, q);
    MemberIdentities(m, n, k, area, q);
  }

  lemma JoinedBelow(rs: Records, n: Records, p: Id, k: Id, identity: Option<Ref>, body: string, j: Id, area: Area,
      q: Id)
    requires Joins(rs, n, p, k, identity, body) && (forall x :: x in rs ==> Placed(rs, x)) && j in rs && q in rs
    ensures Below(n, j, area, q) <==> Below(rs, j, area, q)
  {
    assert Placed(rs, j);
  }

  lemma JoinedPlaced(rs: Records, n: Records, p: Id, k: Id, identity: Option<Ref>, body: string)
    requires Joins(rs, n, p, k, identity, body) && (forall x :: x in rs ==> Placed(rs, x)) && Honest(rs)
    ensures (forall x :: x in n ==> Placed(n, x)) && Honest(n)
  {
    forall x | x in n ensures Placed(n, x) {
      if x in rs { assert Placed(rs, x); }
    }
  }

  lemma JoinedParentAgrees(rs: Records, n: Records, p: Id, k: Id, identity: Option<Ref>, body: string)
    requires Inv(rs) && Joins(rs, n, p, k, identity, body)
    ensures IsParent(n, p) && Agrees(n, p)
  {
    var area := rs[p].content.area;
    JoinedIdentities(rs, n, p, k, identity, body, area, p);
    forall j | Below(n, j, area, p) ensures n[j].content.refs == ActiveRefs(n, area, p) {
      if j != k { JoinedBelow(rs, n, p, k, identity, body, j, area, p); }
    }
  }

  lemma JoinedElsewhere(rs: Records, n: Records, p: Id, k: Id, identity: Option<Ref>, body: string, j: Id, q: Id)
    requires (forall x :: x in rs ==> Placed(rs, x)) && Joins(rs, n, p, k, identity, body) && IsParent(rs, q) && q != p
    requires !rs[q].content.area.Tables? && Below(n, j, rs[q].content.area, q)
    ensures j in rs && Below(rs, j, rs[q].content.area, q) && n[j].content.refs == rs[j].content.refs
  {
    assert j != k;
    JoinedBelow(rs, n, p, k, identity, body, j, rs[q].content.area, q);
    ParentBelowNone(rs, j, q);
    if Below(rs, j, rs[p].content.area, p) { OneParent(rs, j, p, q); }
  }

  lemma JoinedParents(rs: Records, n: Records, p: Id, k: Id, identity: Option<Ref>, body: string, q: Id)
    requires (forall x :: x in rs ==> Placed(rs, x)) && Joins(rs, n, p, k, identity, body) && IsParent(n, q) && q != p
    ensures IsParent(rs, q) && n[q] == rs[q]
  {
    assert q in rs;
    ParentIsTop(rs, q, p);
  }

  lemma JoinedOtherAgrees(rs: Records, n: Records, p: Id, k: Id, identity: Option<Ref>, body: string, q: Id)
    requires Inv(rs) && Joins(rs, n, p, k, identity, body) && IsParent(n, q) && q != p
    ensures Agrees(n, q)
  {
    JoinedParents(rs, n, p, k, identity, body, q);
    var area := rs[q].content.area;
    assert Agrees(rs, q);
    JoinedIdentities(rs, n, p, k, identity, body, area, q);
    assert Identities(n, area, q) == Identities(rs, area, q);
    if !area.Tables? {
      forall j | Below(n, j, area, q) ensures n[j].content.refs == ActiveRefs(n, area, q) {
        JoinedElsewhere(rs, n, p, k, identity, body, j, q);
      }
    }
  }

  lemma JoinedKeepsInv(rs: Records, n: Records, p: Id, k: Id, identity: Option<Ref>, body: string)
    requires Inv(rs) && Joins(rs, n, p, k, identity, body)
    ensures Inv(n)
  {
    JoinedPlaced(rs, n, p, k, identity, body);
    JoinedParentAgrees(rs, n, p, k, identity, body);
    forall q | IsParent(n, q) ensures Agrees(n, q) {
      if q != p { JoinedOtherAgrees(rs, n, p, k, identity, body, q); }
    }
  }

  // ------------------------------------------------------------------ whole runs

  lemma ChildKeepsInv(rs: Records, members: set<Ref>, c: Command)
    requires Inv(rs) && c.AddChild? && Step(rs, members, c).Done?
    ensures Inv(After(rs, members, c))
  {
    var n := After(rs, members, c);
    forall p | IsParent(rs, p) && Below(n, c.id, rs[p].content.area, p)
      ensures n[c.id].content.refs == ActiveRefs(rs, rs[p].content.area, p) {
    }
    WrittenKeepsInv(rs, n, c.id);
  }

  lemma UpdateKeepsInv(rs: Records, members: set<Ref>, c: Command)
    requires Inv(rs) && c.UpdateChild? && Step(rs, members, c).Done?
    ensures Inv(After(rs, members, c))
  {
    var n := After(rs, members, c);
    forall p | IsParent(rs, p) && Below(n, c.id, rs[p].content.area, p)
      ensures n[c.id].content.refs == ActiveRefs(rs, rs[p].content.area, p) {
    }
    WrittenKeepsInv(rs, n, c.id);
  }

  lemma ProposalKeepsInv(rs: Records, members: set<Ref>, c: Command)
    requires Inv(rs) && c.QueueProposal? && Step(rs, members, c).Done?
    ensures Inv(After(rs, members, c))
  {
    var n := After(rs, members, c);
    assert Placed(rs, c.targetId);
    forall p | IsParent(rs, p) && Below(n, c.id, rs[p].content.area, p)
      ensures n[c.id].content.refs == ActiveRefs(rs, rs[p].content.area, p) {
      ProposalRoot(rs, c.targetId, p);
    }
    WrittenKeepsInv(rs, n, c.id);
  }

  lemma ProposalRoot(rs: Records, t: Id, p: Id)
    requires (forall x :: x in rs ==> Placed(rs, x)) && t in rs && IsParent(rs, p)
    requires rs[t].content.area == rs[p].content.area
    requires t == p || rs[t].content.parentId == Some(p)
    ensures RootOf(rs, t) == Some(p) && (t != p ==> !rs[t].content.area.Tables?)
  {
    assert Placed(rs, t);
  }

  lemma StepKeepsInv(rs: Records, members: set<Ref>, c: Command)
    requires Inv(rs)
    ensures Inv(After(rs, members, c))
  {
    if Step(rs, members, c).Done? {
      match c
      case CreateParent(id, _, _) => WrittenKeepsInv(rs, After(rs, members, c), id);
      case AddMember(_, _, _, _) => JoinedKeepsInv(rs, After(rs, members, c), c.parentId, c.id, c.identity, c.body);
      case AddChild(_, _, _) => ChildKeepsInv(rs, members, c);
      case UpdateChild(_, _, _, _) => UpdateKeepsInv(rs, members, c);
      case QueueProposal(_, _, _, _, _) => ProposalKeepsInv(rs, members, c);
    }
  }

  lemma {:induction false} RunsKeepInv(rs: Records, calls: seq<Call>)
    requires Inv(rs)
    ensures Inv(Run(rs, calls))
    decreases |calls|
  {
    if calls != [] {
      StepKeepsInv(rs, calls[0].members, calls[0].command);
      RunsKeepInv(After(rs, calls[0].members, calls[0].command), calls[1..]);
    }
  }

  /** Main result: after any run, each meeting, course and space, and every record below it (proposals of its own
      module about it or about a record below it included), carries exactly the sorted references of its active
      memberships, each once. */
  lemma MembershipAgrees(calls: seq<Call>, p: Id)
    requires IsParent(Run(map[], calls), p) && !Run(map[], calls)[p].content.area.Tables?
    ensures var rs := Run(map[], calls);
      var area := rs[p].content.area;
      && rs[p].content.refs == ActiveRefs(rs, area, p)
      && (forall k :: Below(rs, k, area, p) ==> rs[k].content.refs == ActiveRefs(rs, area, p))
      && (forall i, j :: 0 <= i < j < |rs[p].content.refs| ==> rs[p].content.refs[i] < rs[p].content.refs[j])
      && forall r :: r in rs[p].content.refs <==>
           exists k :: IsActiveMember(rs, k, area, p) && rs[k].content.kind.identity == Some(r)
  {
    RunsKeepInv(map[], calls);
    var rs := Run(map[], calls);
    assert Agrees(rs, p);
    var area := rs[p].content.area;
    forall r
      ensures r in rs[p].content.refs <==>
        exists k :: IsActiveMember(rs, k, area, p) && rs[k].content.kind.identity == Some(r) {
      assert r in rs[p].content.refs <==> r in Identities(rs, area, p);
    }
  }

  // ------------------------------------------------------- proposals across modules

  /** Proposal `k` concerns parent `p`: its target is `p` or a record below it. */
  ghost predicate Concerns(rs: Records, k: Id, p: Id) {
    && k in rs && rs[k].content.kind.Proposal? && IsParent(rs, p) && !rs[p].content.area.Tables?
    && var t := rs[k].content.kind.targetId;
    t in rs && (t == p || (rs[t].content.area == rs[p].content.area && rs[t].content.parentId == Some(p)))
  }

  /** Proposal `k` carries the references of `p`'s active memberships. */
  ghost predicate UpToDate(rs: Records, k: Id, p: Id)
    requires Concerns(rs, k, p)
  {
    rs[k].content.refs == ActiveRefs(rs, rs[p].content.area, p)
  }

  /** A community proposal cannot go stale: over any run it concerns a record of its own module and is up to date. */
  lemma CommunityProposalsStayUpToDate(calls: seq<Call>, k: Id, p: Id)
    requires Concerns(Run(map[], calls), k, p) && Run(map[], calls)[k].content.area.Community?
    ensures UpToDate(Run(map[], calls), k, p)
  {
    RunsKeepInv(map[], calls);
    var rs := Run(map[], calls);
    assert Placed(rs, k) && Placed(rs, rs[k].content.kind.targetId) && Agrees(rs, p);
    assert Below(rs, k, rs[p].content.area, p);
  }

  /** Main result: when somebody new joins, a proposal that was up to date stays so if and only if it belongs to the
      module of the record it is about. Proposals of another module are never synchronised. */
  lemma ProposalFollowsIffSameModule(calls: seq<Call>, members: set<Ref>, c: Command, k: Id)
    requires var rs := Run(map[], calls);
      && c.AddMember? && Step(rs, members, c).Done? && Concerns(rs, k, c.parentId)
      && UpToDate(rs, k, c.parentId) && c.identity.Some? && c.identity.value !in rs[k].content.refs
    ensures var rs := Run(map[], calls);
      var n := After(rs, members, c);
      Concerns(n, k, c.parentId) &&
      (UpToDate(n, k, c.parentId) <==> rs[k].content.area == rs[c.parentId].content.area)
  {
    RunsKeepInv(map[], calls);
    ProposalAfterJoin(Run(map[], calls), members, c, k);
  }

  lemma ProposalAfterJoin(rs: Records, members: set<Ref>, c: Command, k: Id)
    requires Inv(rs) && c.AddMember? && Step(rs, members, c).Done? && Concerns(rs, k, c.parentId)
    requires UpToDate(rs, k, c.parentId) && c.identity.Some? && c.identity.value !in rs[k].content.refs
    ensures var n := After(rs, members, c);
      Concerns(n, k, c.parentId) &&
      (UpToDate(n, k, c.parentId) <==> rs[k].content.area == rs[c.parentId].content.area)
  {
    var n := After(rs, members, c);
    var area := rs[c.parentId].content.area;
    assert Placed(rs, k);
    JoinedParentAgrees(rs, n, c.parentId, c.id, c.identity, c.body);
    JoinedIdentities(rs, n, c.parentId, c.id, c.identity, c.body, area, c.parentId);
    assert c.identity.value in ActiveRefs(n, area, c.parentId);
    if rs[k].content.area == area {
      assert Below(rs, k, area, c.parentId);
      JoinedBelow(rs, n, c.parentId, c.id, c.identity, c.body, k, area, c.parentId);
    } else {
      assert !Below(rs, k, area, c.parentId);
    }
  }

  /** Such a proposal can be made, and it does go stale: a meetings proposal about a course misses the next learner. */
  lemma CrossModuleProposalGoesStale()
    ensures var calls := [Call({7}, CreateParent(0, Learning, "course")),
                          Call({7}, QueueProposal(1, Meetings, 0, 0, "summary")),
                          Call({7}, AddMember(2, 0, Some(7), "learner"))];
      var rs := Run(map[], calls);
      Concerns(rs, 1, 0) && rs[1].content.refs == [] && rs[0].content.refs == ActiveRefs(rs, Learning, 0) == [7]
  {
    var first, second, third := CreateParent(0, Learning, "course"), QueueProposal(1, Meetings, 0, 0, "summary"),
      AddMember(2, 0, Some(7), "learner");
    ThreeCalls({7}, first, second, third);
    var both := ProposedCourse();
    LearnerJoins(both);
  }

  ghost function ProposedCourse(): Records {
    map[0 := Fresh(Learning, Parent, None, [], "course"), 1 := Fresh(Meetings, Proposal(0), None, [], "summary")]
  }

  lemma ProposedFirst()
    ensures After(After(map[], {7}, CreateParent(0, Learning, "course")), {7},
      QueueProposal(1, Meetings, 0, 0, "summary")) == ProposedCourse()
  {
    var course: Records := map[0 := Fresh(Learning, Parent, None, [], "course")];
    assert After(map[], {7}, CreateParent(0, Learning, "course")) == course;
    assert Identities(course, Learning, 0) == {};
    assert ActiveRefs(course, Learning, 0) == [];
  }

  lemma LearnerJoins(both: Records)
    requires both == ProposedCourse()
    ensures var n := After(both, {7}, AddMember(2, 0, Some(7), "learner"));
      Concerns(n, 1, 0) && n[1].content.refs == [] && n[0].content.refs == ActiveRefs(n, Learning, 0) == [7]
  {
    assert Identities(both, Learning, 0) == {};
    var n := After(both, {7}, AddMember(2, 0, Some(7), "learner"));
    assert Joins(both, n, 0, 2, Some(7), "learner");
    JoinedIdentities(both, n, 0, 2, Some(7), "learner", Learning, 0);
    assert Identities(n, Learning, 0) == {7};
    AscendingOne(7);
  }

  lemma AscendingOne(x: nat)
    ensures Ascending({x}) == [x]
  {
    var r := Ascending({x});
    assert x in r;
    assert forall i :: 0 <= i < |r| ==> r[i] in r;
  }

  lemma RunFirst(rs: Records, first: Call, rest: seq<Call>)
    ensures Run(rs, [first] + rest) == Run(After(rs, first.members, first.command), rest)
  {
    assert ([first] + rest)[1..] == rest;
  }

  lemma ThreeCalls(members: set<Ref>, a: Command, b: Command, c: Command)
    requires a == CreateParent(0, Learning, "course") && b == QueueProposal(1, Meetings, 0, 0, "summary")
    requires members == {7}
    ensures Run(map[], [Call(members, a), Call(members, b), Call(members, c)]) == After(ProposedCourse(), members, c)
  {
    var x, y, z := Call(members, a), Call(members, b), Call(members, c);
    assert [x, y, z] == [x] + ([y] + ([z] + []));
    var one := After(map[], members, a);
    RunFirst(map[], x, [y] + ([z] + []));
    RunFirst(one, y, [z] + []);
    RunFirst(After(one, members, b), z, []);
    ProposedFirst();
  }

  // ------------------------------------------------------------------- versions

  /** A command leaves a record alone or gives it the next version. */
  lemma StepBumpsVersions(rs: Records, members: set<Ref>, c: Command, k: Id)
    requires k in rs
    ensures var n := After(rs, members, c);
      k in n && (n[k] == rs[k] || n[k].content.version == rs[k].content.version + 1)
  {
  }

  lemma {:induction false} VersionsRise(rs: Records, calls: seq<Call>, k: Id)
    requires k in rs
    ensures var n := Run(rs, calls);
      && k in n && rs[k].content.version <= n[k].content.version
      && (n[k].content.version == rs[k].content.version ==> n[k] == rs[k])
    decreases |calls|
  {
    if calls != [] {
      StepBumpsVersions(rs, calls[0].members, calls[0].command, k);
      VersionsRise(After(rs, calls[0].members, calls[0].command), calls[1..], k);
    }
  }

  /** Main result: a record's version and content hash identify its content. If either is what it was, at any two
      moments of any run, so is the whole record; evidence bound to a hash cannot drift. */
  lemma HashIdentifiesRecord(calls: seq<Call>, later: seq<Call>, k: Id)
    requires k in Run(map[], calls)
    ensures var rs, n := Run(map[], calls), Run(Run(map[], calls), later);
      && k in n
      && (n[k].hash == rs[k].hash <==> n[k] == rs[k])
      && (n[k].content.version == rs[k].content.version <==> n[k] == rs[k])
  {
    RunsKeepInv(map[], calls);
    RunsKeepInv(Run(map[], calls), later);
    VersionsRise(Run(map[], calls), later, k);
  }
}
