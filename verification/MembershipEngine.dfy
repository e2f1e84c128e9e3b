/** The additive engine's record store: records are objects updated in place, and every change is marked for
    persistence. */
module MembershipEngine {
  import opened Options
  import opened Sorting
  import opened Membership

  class Stored {
    const area: Area
    const kind: Kind
    const parentId: Option<Id>
    var state: State
    var refs: seq<Ref>
    var body: string
    var version: nat
    var hash: Content

    constructor (area: Area, kind: Kind, parentId: Option<Id>, refs: seq<Ref>, body: string)
      ensures View() == Fresh(area, kind, parentId, refs, body)
    {
      this.area, this.kind, this.parentId := area, kind, parentId;
      this.state, this.refs, this.body, this.version := Active, refs, body, 1;
      this.hash := Content(area, kind, parentId, Active, refs, body, 1);
    }

    function View(): Record
      reads this
    {
      Record(Content(area, kind, parentId, state, refs, body, version), hash)
    }
  }

  class Engine {
    var records: map<Id, Stored>
    var dirty: set<Id>

    constructor ()
      ensures Valid() && View() == map[] && dirty == {}
    {
      records, dirty := map[], {};
    }

    /** No two ids share a record object. */
    ghost predicate Valid()
      reads `records
    {
      forall i, j :: i in records && j in records && records[i] == records[j] ==> i == j
    }

    function View(): (rs: Records)
      reads `records, records.Values
      ensures rs.Keys == records.Keys
    {
      map k | k in records :: records[k].View()
    }

    method Create(id: Id, area: Area, kind: Kind, parentId: Option<Id>, refs: seq<Ref>, body: string)
      requires Valid() && id !in records
      modifies this
      ensures Valid() && View() == old(View())[id := Fresh(area, kind, parentId, refs, body)]
      ensures dirty == old(dirty) + {id} && fresh(records.Values - old(records.Values))
    {
      var record := new Stored(area, kind, parentId, refs, body);
      records := records[id := record];
      dirty := dirty + {id};
    }

    method Update(id: Id, state: State, refs: seq<Ref>, body: string)
      requires Valid() && id in records
      modifies `dirty, records[id]
      ensures Valid() && View() == old(View())[id := Touch(old(View())[id], state, refs, body)]
      ensures dirty == old(dirty) + {id}
    {
      var record := records[id];
      record.state := state;
      record.refs := refs;
      record.body := body;
      record.version := record.version + 1;
      record.hash := Content(record.area, record.kind, record.parentId, record.state, record.refs, record.body,
        record.version);
      dirty := dirty + {id};
    }

    /** One pass over the records, collecting the active members' references; then each once, in order. */
    method ActiveMembershipRefs(area: Area, parentId: Id, extra: Option<Ref>, members: set<Ref>)
      returns (ok: bool, refs: seq<Ref>)
      ensures ok <==> Identities(View(), area, parentId) <= members && (extra.Some? ==> extra.value in members)
      ensures ok ==> refs == Ascending(Identities(View(), area, parentId) + if extra.Some? then {extra.value} else {})
    {
      ok, refs := true, [];
      var found: set<Ref> := {};
      var rest := records.Keys;
      while rest != {}
        invariant rest <= records.Keys
        invariant found == set k | k in records && k !in rest && IsActiveMember(View(), k, area, parentId)
          && records[k].kind.identity.Some? :: records[k].kind.identity.value
        decreases rest
      {
        var k :| k in rest;
        rest := rest - {k};
        var record := records[k];
        if record.area == area && record.kind.Member? && record.state.Active? && record.parentId == Some(parentId)
          && record.kind.identity.Some? {
          assert IsActiveMember(View(), k, area, parentId);
          found := found + {record.kind.identity.value};
        }
      }
      assert found == Identities(View(), area, parentId);
      if !(found <= members) || (extra.Some? && extra.value !in members) {
        return false, [];
      }
      refs := Ascending(found + if extra.Some? then {extra.value} else {});
    }

    /** `synchronizeMembershipVisibility`: the parent, then a pass over all records. */
    method Synchronize(parentId: Id, refs: seq<Ref>)
      requires Valid() && parentId in records
      modifies `dirty, records.Values
      ensures Valid() && records == old(records)
      ensures View() == Synchronized(old(View()), old(View())[parentId].content.area, parentId, refs)
      ensures dirty == old(dirty) + Changed(old(View()), View())
    {
      ghost var before := View();
      ghost var marked := dirty;
      var area := records[parentId].area;
      Update(parentId, records[parentId].state, refs, records[parentId].body);
      ParentFirst(before, View(), area, parentId, refs);
      SynchronizeBelow(area, parentId, refs, before, marked);
    }

    method SynchronizeBelow(area: Area, parentId: Id, refs: seq<Ref>, ghost before: Records, ghost marked: set<Id>)
      requires Valid() && Partly(before, View(), area, parentId, refs, records.Keys - {parentId})
      requires dirty == marked + Changed(before, View())
      modifies `dirty, records.Values
      ensures Valid() && records == old(records)
      ensures View() == Synchronized(before, area, parentId, refs)
      ensures dirty == marked + Changed(before, View())
    {
      var rest := records.Keys - {parentId};
      while rest != {}
        invariant Valid() && parentId !in rest && Partly(before, View(), area, parentId, refs, rest)
        invariant dirty == marked + Changed(before, View())
        decreases rest
      {
        var k :| k in rest;
        SynchronizeNext(k, area, parentId, refs, before, rest, marked);
        rest := rest - {k};
      }
      AllReached(before, View(), area, parentId, refs);
    }

    /** One turn of that pass. */
    method SynchronizeNext(k: Id, area: Area, parentId: Id, refs: seq<Ref>, ghost before: Records, ghost rest: set<Id>,
        ghost marked: set<Id>)
      requires Valid() && k in records && k in rest && k != parentId
      requires Partly(before, View(), area, parentId, refs, rest) && dirty == marked + Changed(before, View())
      modifies `dirty, records[k]
      ensures Valid() && Partly(before, View(), area, parentId, refs, rest - {k})
      ensures dirty == marked + Changed(before, View())
    {
      ghost var now, was := View(), dirty;
      SynchronizeOne(k, area, parentId, refs);
      OneMore(before, now, View(), area, parentId, refs, rest, k);
      OneMoreMarked(before, now, View(), area, parentId, refs, rest, k, marked, was, dirty);
    }

    method SynchronizeOne(k: Id, area: Area, parentId: Id, refs: seq<Ref>)
      requires Valid() && k in records
      modifies `dirty, records[k]
      ensures Valid()
      ensures View() == old(View())[k := Copied(old(View()), k, area, parentId, refs)]
      ensures dirty == old(dirty) + if Copied(old(View()), k, area, parentId, refs) != old(View())[k] then {k} else {}
    {
      if IsBelow(k, area, parentId) && records[k].refs != refs {
        Update(k, records[k].state, refs, records[k].body);
      }
    }

    /** `recordBelongsToParent`. */
    predicate IsBelow(k: Id, area: Area, parentId: Id)
      requires k in records
      reads `records, records.Values
      ensures IsBelow(k, area, parentId) <==> Below(View(), k, area, parentId)
    {
      && records[k].area == area && k != parentId
      && (records[k].parentId == Some(parentId)
          || (records[k].kind.Proposal?
              && var t := records[k].kind.targetId;
              t in records && records[t].area == area && (t == parentId || records[t].parentId == Some(parentId))))
    }

    method MayJoin(members: set<Ref>, c: Command) returns (ok: bool, refs: seq<Ref>)
      requires c.AddMember?
      ensures ok <==> StepAddMember(View(), members, c).Done?
      ensures ok ==> StepAddMember(View(), members, c).records ==
                     WithMember(View(), c.id, c.parentId, c.identity, refs, c.body)
    {
      ok, refs := false, [];
      if c.parentId !in records || !records[c.parentId].kind.Parent? || records[c.parentId].area.Tables? {
        return;
      }
      var area := records[c.parentId].area;
      JoinDecided(View(), members, c, area);
      ok, refs := Enrol(area, c.parentId, c.identity, members);
      ok := ok && c.id !in records;
    }

    /** Checks the members there are and the one to come; the member list with both. */
    method Enrol(area: Area, parentId: Id, identity: Option<Ref>, members: set<Ref>) returns (ok: bool, refs: seq<Ref>)
      ensures ok <==> MayEnter(Identities(View(), area, parentId), area, identity, members)
      ensures ok ==> refs == Joined(Identities(View(), area, parentId), identity)
    {
      var current;
      ok, current := Boundary(area, parentId, members);
      if !ok || (!area.Meetings? && (identity.None? || identity.value in current)) {
        return false, [];
      }
      ok, refs := ActiveMembershipRefs(area, parentId, identity, members);
    }

    /** `participant-add`, `learner-enroll` and `member-add`. */
    method AddMembership(members: set<Ref>, c: Command) returns (ok: bool)
      requires Valid() && dirty == {} && c.AddMember?
      modifies this, records.Values
      ensures Valid() && (ok <==> StepAddMember(old(View()), members, c).Done?)
      ensures View() == if ok then StepAddMember(old(View()), members, c).records else old(View())
      ensures dirty == Changed(old(View()), View())
    {
      ghost var before := View();
      ghost var out := StepAddMember(before, members, c);
      NothingChanged(before);
      var refs;
      ok, refs := MayJoin(members, c);
      assert ok <==> out.Done?;
      if ok {
        StoreMembership(c.id, c.parentId, c.identity, refs, c.body);
      }
      assert View() == if ok then out.records else before;
    }

    method StoreMembership(id: Id, parentId: Id, identity: Option<Ref>, refs: seq<Ref>, body: string)
      requires Valid() && parentId in records && id !in records && dirty == {}
      modifies this, records.Values
      ensures Valid() && dirty == Changed(old(View()), View())
      ensures View() == WithMember(old(View()), id, parentId, identity, refs, body)
    {
      ghost var before := View();
      var area := records[parentId].area;
      Synchronize(parentId, refs);
      CreateBeside(before, id, area, Member(identity), Some(parentId), refs, body);
    }

    /** A new record beside the changes made since `before`. */
    method CreateBeside(ghost before: Records, id: Id, area: Area, kind: Kind, parentId: Option<Id>, refs: seq<Ref>,
        body: string)
      requires Valid() && id !in records && id !in before && dirty == {} + Changed(before, View())
      modifies this
      ensures Valid() && dirty == Changed(before, View())
      ensures View() == old(View())[id := Fresh(area, kind, parentId, refs, body)]
    {
      ghost var mid := View();
      Create(id, area, kind, parentId, refs, body);
      CreatedIsChanged(before, mid, View(), id);
    }

    method StoreRecord(id: Id, area: Area, kind: Kind, parentId: Option<Id>, refs: seq<Ref>, body: string)
      requires Valid() && id !in records && dirty == {}
      modifies this
      ensures Valid() && dirty == Changed(old(View()), View())
      ensures View() == old(View())[id := Fresh(area, kind, parentId, refs, body)]
    {
      NothingChanged(View());
      CreateBeside(View(), id, area, kind, parentId, refs, body);
    }

    method StoreUpdate(id: Id, state: State, refs: seq<Ref>, body: string)
      requires Valid() && id in records && dirty == {}
      modifies `dirty, records[id]
      ensures Valid() && dirty == Changed(old(View()), View())
      ensures View() == Touched(old(View()), id, state, refs, body)
    {
      ghost var before := View();
      Update(id, state, refs, body);
      UpdatedIsChanged(before, View(), id);
    }

    method MayAddBelow(members: set<Ref>, c: Command) returns (ok: bool, refs: seq<Ref>)
      requires c.AddChild?
      ensures ok <==> StepAddChild(View(), members, c).Done?
      ensures ok ==> StepAddChild(View(), members, c).records ==
                     View()[c.id := Fresh(records[c.parentId].area, Child, Some(c.parentId), refs, c.body)]
    {
      ok, refs := false, [];
      if c.parentId !in records || !records[c.parentId].kind.Parent? || records[c.parentId].area.Tables? {
        return;
      }
      ok, refs := Boundary(records[c.parentId].area, c.parentId, members);
      ok := ok && c.id !in records;
    }

    /** The member list a new or updated record takes over from its parent. */
    method Boundary(area: Area, parentId: Id, members: set<Ref>) returns (ok: bool, refs: seq<Ref>)
      ensures ok <==> Identities(View(), area, parentId) <= members
      ensures ok ==> refs == ActiveRefs(View(), area, parentId)
    {
      ok, refs := ActiveMembershipRefs(area, parentId, None, members);
      assert Identities(View(), area, parentId) + {} == Identities(View(), area, parentId);
    }

    method AddRecord(members: set<Ref>, c: Command) returns (ok: bool)
      requires Valid() && dirty == {} && c.AddChild?
      modifies this
      ensures Valid() && (ok <==> StepAddChild(old(View()), members, c).Done?)
      ensures View() == if ok then StepAddChild(old(View()), members, c).records else old(View())
      ensures dirty == Changed(old(View()), View())
    {
      ghost var before := View();
      var refs;
      ok, refs := MayAddBelow(members, c);
      if ok {
        StoreRecord(c.id, records[c.parentId].area, Child, Some(c.parentId), refs, c.body);
      } else {
        NothingChanged(before);
      }
    }

    method MayUpdate(members: set<Ref>, c: Command) returns (ok: bool, state: State, refs: seq<Ref>)
      requires c.UpdateChild?
      ensures ok <==> StepUpdateChild(View(), members, c).Done?
      ensures ok ==> c.id in records
      ensures ok ==> StepUpdateChild(View(), members, c).records == Touched(View(), c.id, state, refs, c.body)
    {
      ok, state, refs := false, c.state, [];
      if c.id !in records || !(records[c.id].kind.Child? || records[c.id].kind.Member?)
        || records[c.id].parentId.None? {
        return;
      }
      var record := records[c.id];
      var parentId := record.parentId.value;
      if parentId !in records || !records[parentId].kind.Parent? || records[parentId].area != record.area {
        return;
      }
      if record.kind.Member? {
        state := record.state;
      }
      ok, refs := Boundary(record.area, parentId, members);
      ok := ok && (c.expectedVersion.Some? ==> c.expectedVersion.value == record.version);
    }

    /** Redaction, hiding, reactions and roles. */
    method UpdateRecord(members: set<Ref>, c: Command) returns (ok: bool)
      requires Valid() && dirty == {} && c.UpdateChild?
      modifies this, records.Values
      ensures Valid() && (ok <==> StepUpdateChild(old(View()), members, c).Done?)
      ensures View() == if ok then StepUpdateChild(old(View()), members, c).records else old(View())
      ensures dirty == Changed(old(View()), View())
    {
      ghost var before := View();
      ghost var out := StepUpdateChild(before, members, c);
      NothingChanged(before);
      var state, refs;
      ok, state, refs := MayUpdate(members, c);
      assert ok <==> out.Done?;
      if ok {
        StoreUpdate(c.id, state, refs, c.body);
      }
      assert View() == if ok then out.records else before;
    }

    predicate InSpace(spaceId: Id, targetId: Id)
      requires targetId in records
      reads `records, records.Values
      ensures InSpace(spaceId, targetId) <==> BoundToSpace(View(), Community, spaceId, targetId)
    {
      && spaceId in records && records[spaceId].kind.Parent? && records[spaceId].area.Community?
      && (targetId == spaceId || records[targetId].parentId == Some(spaceId))
    }

    method MayPropose(members: set<Ref>, c: Command) returns (ok: bool, refs: seq<Ref>)
      requires c.QueueProposal?
      ensures ok <==> StepQueueProposal(View(), members, c).Done?
      ensures ok ==> StepQueueProposal(View(), members, c).records ==
                     View()[c.id := Fresh(c.area, Proposal(c.targetId), None, refs, c.body)]
    {
      ok, refs := false, [];
      if c.targetId !in records {
        return;
      }
      var target := records[c.targetId];
      if c.area.Community? && !InSpace(c.spaceId, c.targetId) {
        return;
      }
      if target.area.Tables? {
        return c.id !in records, [];
      }
      var root := if target.kind.Parent? then Some(c.targetId) else target.parentId;
      if root.None? || root.value !in records || !records[root.value].kind.Parent?
        || records[root.value].area != target.area {
        return;
      }
      ok, refs := Boundary(target.area, root.value, members);
      ok := ok && c.id !in records;
    }

    method QueueGroundedProposal(members: set<Ref>, c: Command) returns (ok: bool)
      requires Valid() && dirty == {} && c.QueueProposal?
      modifies this
      ensures Valid() && (ok <==> StepQueueProposal(old(View()), members, c).Done?)
      ensures View() == if ok then StepQueueProposal(old(View()), members, c).records else old(View())
      ensures dirty == Changed(old(View()), View())
    {
      ghost var before := View();
      var refs;
      ok, refs := MayPropose(members, c);
      if ok {
        StoreRecord(c.id, c.area, Proposal(c.targetId), None, refs, c.body);
      } else {
        NothingChanged(before);
      }
    }

    /** `execute`: forget what the last command changed, then run this one. */
    method Execute(members: set<Ref>, c: Command) returns (ok: bool)
      requires Valid()
      modifies this, records.Values
      ensures Valid() && (ok <==> Step(old(View()), members, c).Done?)
      ensures View() == After(old(View()), members, c)
      ensures dirty == Changed(old(View()), View())
    {
      ghost var before := View();
      dirty := {};
      assert View() == before;
      match c
      case CreateParent(id, area, body) =>
        ok := id !in records;
        if ok { StoreRecord(id, area, Parent, None, [], body); } else { NothingChanged(before); }
      case AddMember(_, _, _, _) => ok := AddMembership(members, c);
      case AddChild(_, _, _) => ok := AddRecord(members, c);
      case UpdateChild(_, _, _, _) => ok := UpdateRecord(members, c);
      case QueueProposal(_, _, _, _, _) => ok := QueueGroundedProposal(members, c);
    }
  }

  /** The ids a command created or changed: what has to be persisted. */
  ghost function Changed(before: Records, after: Records): set<Id> {
    set k | k in after && (k !in before || before[k] != after[k])
  }

  ghost function Touched(rs: Records, id: Id, state: State, refs: seq<Ref>, body: string): Records
    requires id in rs
  {
    rs[id := Touch(rs[id], state, refs, body)]
  }

  ghost function WithMember(rs: Records, id: Id, parentId: Id, identity: Option<Ref>, refs: seq<Ref>,
      body: string): Records
    requires parentId in rs
  {
    var area := rs[parentId].content.area;
    Synchronized(rs, area, parentId, refs)[id := Fresh(area, Member(identity), Some(parentId), refs, body)]
  }

  predicate MayEnter(current: set<Ref>, area: Area, identity: Option<Ref>, members: set<Ref>) {
    && current <= members && (identity.None? ==> area.Meetings?)
    && (identity.Some? ==> identity.value in members && (area.Meetings? || identity.value !in current))
  }

  function Joined(current: set<Ref>, identity: Option<Ref>): seq<Ref> {
    Ascending(current + if identity.Some? then {identity.value} else {})
  }

  lemma JoinDecided(rs: Records, members: set<Ref>, c: Command, area: Area)
    requires c.AddMember? && IsParent(rs, c.parentId) && area == rs[c.parentId].content.area && !area.Tables?
    ensures StepAddMember(rs, members, c).Done? <==>
      MayEnter(Identities(rs, area, c.parentId), area, c.identity, members) && c.id !in rs
    ensures StepAddMember(rs, members, c).Done? ==>
      StepAddMember(rs, members, c).records ==
        WithMember(rs, c.id, c.parentId, c.identity, Joined(Identities(rs, area, c.parentId), c.identity), c.body)
  {
  }

  lemma CreatedIsChanged(before: Records, mid: Records, next: Records, k: Id)
    requires k !in before && k !in mid && k in next && next == mid[k := next[k]]
    ensures Changed(before, next) == Changed(before, mid) + {k}
    ensures Changed(mid, next) == {k}
  {
  }

  lemma NothingChanged(rs: Records)
    ensures Changed(rs, rs) == {}
  {
  }

  lemma UpdatedIsChanged(before: Records, next: Records, k: Id)
    requires k in before && k in next && next == before[k := next[k]] && next[k] != before[k]
    ensures Changed(before, next) == {k}
  {
  }

  /** What the pass leaves of record `k`. */
  ghost function Copied(rs: Records, k: Id, area: Area, parentId: Id, refs: seq<Ref>): Record
    requires k in rs
  {
    if Below(rs, k, area, parentId) && rs[k].content.refs != refs then WithRefs(rs[k], refs) else rs[k]
  }

  /** The pass has yet to reach `rest`. */
  ghost predicate Partly(before: Records, now: Records, area: Area, parentId: Id, refs: seq<Ref>, rest: set<Id>) {
    && now.Keys == before.Keys && rest <= now.Keys
    && forall k :: k in now ==> now[k] == if k in rest then before[k] else Synchronized(before, area, parentId, refs)[k]
  }

  lemma ParentFirst(before: Records, now: Records, area: Area, parentId: Id, refs: seq<Ref>)
    requires parentId in before && now == before[parentId := WithRefs(before[parentId], refs)]
    ensures Partly(before, now, area, parentId, refs, now.Keys - {parentId})
    ensures Changed(before, now) == {parentId}
  {
  }

  lemma SameBelow(before: Records, now: Records, area: Area, parentId: Id, refs: seq<Ref>, rest: set<Id>, k: Id)
    requires Partly(before, now, area, parentId, refs, rest) && k in before
    ensures Below(now, k, area, parentId) <==> Below(before, k, area, parentId)
  {
    if now[k].content.kind.Proposal? && now[k].content.kind.targetId in now {
      var t := now[k].content.kind.targetId;
      assert now[t].content.parentId == before[t].content.parentId;
    }
  }

  lemma OneMore(before: Records, now: Records, next: Records, area: Area, parentId: Id, refs: seq<Ref>, rest: set<Id>,
      k: Id)
    requires Partly(before, now, area, parentId, refs, rest) && k in rest && k != parentId
    requires next == now[k := Copied(now, k, area, parentId, refs)]
    ensures Partly(before, next, area, parentId, refs, rest - {k})
  {
    SameBelow(before, now, area, parentId, refs, rest, k);
    assert next[k] == Synchronized(before, area, parentId, refs)[k];
  }

  lemma AllReached(before: Records, now: Records, area: Area, parentId: Id, refs: seq<Ref>)
    requires Partly(before, now, area, parentId, refs, {})
    ensures now == Synchronized(before, area, parentId, refs)
  {
  }

  lemma OneMoreMarked(before: Records, now: Records, next: Records, area: Area, parentId: Id, refs: seq<Ref>,
      rest: set<Id>, k: Id,
                      marked: set<Id>, was: set<Id>, dirty: set<Id>)
    requires Partly(before, now, area, parentId, refs, rest) && k in rest
    requires next == now[k := Copied(now, k, area, parentId, refs)] && was == marked + Changed(before, now)
    requires dirty == was + if Copied(now, k, area, parentId, refs) != now[k] then {k} else {}
    ensures dirty == marked + Changed(before, next)
  {
    assert now[k] == before[k];
    forall x ensures x in Changed(before, next) <==> x in Changed(before, now) || (x == k && next[k] != now[k]) {
    }
  }
}
