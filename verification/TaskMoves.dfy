/** What each board command does, exactly when it is accepted, and what an item's place says of its predecessors. */
module TaskMoves {
  import opened Sorting
  import opened TaskBoard

  // ------------------------------------------------------------ states in order

  /** `s` is at place `i` and nowhere before. */
  predicate FirstAt(names: seq<Name>, i: nat, s: Name) {
    i < |names| && names[i] == s && s !in names[..i]
  }

  lemma {:induction false} IndexIsFirst(states: seq<Name>, s: Name, i: nat)
    ensures IndexOf(states, s) == i <==> FirstAt(states, i, s)
  {
    if states != [] && states[0] != s {
      if i > 0 {
        IndexIsFirst(states[1..], s, i - 1);
        if i < |states| { assert states[..i] == [states[0]] + states[1..][..i - 1]; }
      }
    }
  }

  /** A project lists its states in the order in which they were first named. */
  lemma {:induction false} StatesKeepOrder(raw: seq<Name>, x: Name, i: nat, y: Name, j: nat, k: nat, m: nat)
    requires FirstAt(raw, i, x) && FirstAt(raw, j, y) && FirstAt(Unique(raw), k, x) && FirstAt(Unique(raw), m, y)
    ensures i < j <==> k < m
    decreases |raw|
  {
    var before, last := raw[..|raw| - 1], raw[|raw| - 1];
    var kept := Unique(before);
    if i < |before| && j < |before| {
      EarlierFirst(before, last, i, x);
      EarlierFirst(before, last, j, y);
      assert raw == before + [last];
      if last !in kept {
        EarlierFirst(kept, last, k, x);
        EarlierFirst(kept, last, m, y);
      }
      StatesKeepOrder(before, x, i, y, j, k, m);
    } else {
      assert raw[..|raw| - 1] == before;
      LastIsNew(raw, i, x, k);
      LastIsNew(raw, j, y, m);
    }
  }

  lemma EarlierFirst(before: seq<Name>, last: Name, i: nat, x: Name)
    requires FirstAt(before + [last], i, x) && x in before
    ensures FirstAt(before, i, x)
  {
    var n :| 0 <= n < |before| && before[n] == x;
    assert (before + [last])[n] == x;
    assert (before + [last])[..i] == before[..i];
  }

  /** A name that first comes last is kept last. */
  lemma LastIsNew(raw: seq<Name>, i: nat, x: Name, k: nat)
    requires FirstAt(raw, i, x) && FirstAt(Unique(raw), k, x)
    ensures i == |raw| - 1 ==> k == |Unique(raw)| - 1 && |Unique(raw)| == |Unique(raw[..|raw| - 1])| + 1
    ensures i < |raw| - 1 ==> k < |Unique(raw[..|raw| - 1])|
  {
    var before, last := raw[..|raw| - 1], raw[|raw| - 1];
    var kept := Unique(before);
    if i < |raw| - 1 {
      assert before[i] == x;
      if last !in kept { EarlierFirst(kept, last, k, x); }
    } else {
      assert raw[..i] == before;
    }
  }

  /** The states are in the order in which they were first named. */
  ghost predicate InOrderOf(raw: seq<Name>, states: seq<Name>) {
    forall x, i, y, j, k, m ::
      FirstAt(raw, i, x) && FirstAt(raw, j, y) && FirstAt(states, k, x) && FirstAt(states, m, y) ==> (i < j <==> k < m)
  }

  // ---------------------------------------------------------- exactly when, what

  /** A project needs two different states, and its limits are positive and of its own states. */
  lemma ProjectExactly(b: Board, id: Id, raw: seq<Name>, limits: map<Name, int>)
    ensures Step(b, CreateProject(id, raw, limits)).Done? <==>
      && id !in b.projects && (exists x, y :: x in raw && y in raw && x != y)
      && forall s :: s in limits ==> s in raw && limits[s] >= 1
    ensures Step(b, CreateProject(id, raw, limits)).Done? ==>
      var n := After(b, CreateProject(id, raw, limits));
      && id in n.projects && n.projects[id].limits == limits && Distinct(n.projects[id].states)
      && (forall s :: s in n.projects[id].states <==> s in raw) && InOrderOf(raw, n.projects[id].states)
      && n == b.(projects := b.projects[id := n.projects[id]])
  {
    UniqueIsDistinct(raw);
    var states := Unique(raw);
    if |states| >= 2 { assert states[0] in raw && states[1] in raw; }
    if x, y :| x in raw && y in raw && x != y {
      assert x in states && y in states;
    }
    forall x, i, y, j, k, m | FirstAt(raw, i, x) && FirstAt(raw, j, y) && FirstAt(states, k, x) && FirstAt(states, m, y)
      ensures i < j <==> k < m {
      StatesKeepOrder(raw, x, i, y, j, k, m);
    }
  }

  /** A new item is the first version, in the project's first state. */
  lemma ItemExactly(b: Board, id: Id, projectId: Id)
    requires Inv(b)
    ensures Step(b, CreateItem(id, projectId)).Done? <==> projectId in b.projects && id !in b.items
    ensures Step(b, CreateItem(id, projectId)).Done? ==>
      var n := After(b, CreateItem(id, projectId));
      && id in n.items && n.items[id].projectId == projectId && n.items[id].version == 1
      && b.projects[projectId].states[0] == n.items[id].state && n == b.(items := b.items[id := n.items[id]])
  {
  }

  /** A link is accepted between two items of the project if no way leads back; its edge is stored as it was given. */
  lemma LinkExactly(b: Board, projectId: Id, predecessor: Id, successor: Id)
    requires Inv(b)
    ensures Step(b, Link(projectId, predecessor, successor)).Done? <==>
      && projectId in b.projects && predecessor in b.items && successor in b.items && predecessor != successor
      && b.items[predecessor].projectId == projectId && b.items[successor].projectId == projectId
      && |b.edges| <= SCAN_LIMIT && !LeadsTo(PairsOf(b.edges, projectId), successor, predecessor)
    ensures Step(b, Link(projectId, predecessor, successor)).Done? ==>
      var n := After(b, Link(projectId, predecessor, successor));
      n == b.(edges := n.edges) && |n.edges| == |b.edges| + 1 && n.edges[..|b.edges|] == b.edges
        && n.edges[|b.edges|].projectId == projectId && n.edges[|b.edges|].predecessor == predecessor
        && n.edges[|b.edges|].successor == successor
  {
    if projectId in b.projects && predecessor in b.items && successor in b.items && predecessor != successor
      && b.items[predecessor].projectId == projectId == b.items[successor].projectId && |b.edges| <= SCAN_LIMIT {
      LinkRefusedIffPathBack(b, projectId, predecessor, successor);
    }
  }

  /** The project of item `id` has `state` in place `i`. */
  ghost predicate HasPlace(b: Board, id: Id, state: Name, i: int) {
    && id in b.items && b.items[id].projectId in b.projects
    && 0 <= i < |b.projects[b.items[id].projectId].states| && b.projects[b.items[id].projectId].states[i] == state
  }

  /** Item `id` is in place `i` of its project's states. */
  ghost predicate InPlace(b: Board, id: Id, i: int) {
    id in b.items && HasPlace(b, id, b.items[id].state, i)
  }

  /** `id` is in the last place. */
  ghost predicate IsComplete(b: Board, id: Id) {
    id in b.items && b.items[id].projectId in b.projects
      && InPlace(b, id, |b.projects[b.items[id].projectId].states| - 1)
  }

  /** Every stored dependency of the item's project into the item has a complete predecessor. */
  ghost predicate NothingOpenBefore(b: Board, id: Id)
    requires id in b.items
  {
    forall e :: e in b.edges && e.projectId == b.items[id].projectId && e.successor == id ==>
      IsComplete(b, e.predecessor)
  }

  /** The other items of the project in that state. */
  function Others(b: Board, id: Id, state: Name): set<Id>
    requires id in b.items
  {
    set x | x in b.items && x != id && b.items[x].projectId == b.items[id].projectId && b.items[x].state == state
  }

  ghost predicate HasRoom(b: Board, id: Id, state: Name)
    requires id in b.items && b.items[id].projectId in b.projects
  {
    var limits := b.projects[b.items[id].projectId].limits;
    state in limits ==> |b.items| <= SCAN_LIMIT && |Others(b, id, state)| < limits[state]
  }

  /** The move is to the place before or after, and forward only when nothing is open before the item. */
  ghost predicate MayGo(b: Board, id: Id, i: int, j: int)
    requires id in b.items
  {
    j == i - 1 || (j == i + 1 && |b.edges| <= SCAN_LIMIT && NothingOpenBefore(b, id))
  }

  lemma OnlyPlace(b: Board, id: Id, state: Name)
    requires Projects(b) && id in b.items
    ensures var i := IndexOf(b.projects[b.items[id].projectId].states, state);
      forall k :: HasPlace(b, id, state, k) <==> k == i >= 0
  {
  }

  lemma DoneIsNothingOpen(b: Board, id: Id)
    requires Inv(b) && id in b.items
    ensures var projectId := b.items[id].projectId;
      PredecessorsDone(b, id, projectId, b.projects[projectId].Terminal()) <==> NothingOpenBefore(b, id)
  {
    var projectId := b.items[id].projectId;
    forall e | e in b.edges && e.projectId == projectId && e.successor == id
      ensures IsComplete(b, e.predecessor) <==>
        e.predecessor in b.items && b.items[e.predecessor].state == b.projects[projectId].Terminal() {
    }
  }

  lemma SameOthers(b: Board, id: Id, state: Name)
    requires id in b.items
    ensures ItemsIn(b.items, b.items[id].projectId, state) - {id} == Others(b, id, state)
  {
  }

  /** Main result: a transition is accepted exactly when it is from the item's place to the one before it or, with
      nothing open before the item, to the one after it, there is room in the new state, and the version is current.
      It moves the item, counts its version, and changes nothing else. */
  lemma TransitionExactly(b: Board, id: Id, toState: Name, version: nat)
    requires Inv(b) && id in b.items
    ensures Step(b, Transition(id, toState, version)).Done? <==>
      && (exists i, j :: InPlace(b, id, i) && HasPlace(b, id, toState, j) && MayGo(b, id, i, j))
      && HasRoom(b, id, toState) && version == b.items[id].version >= 1
    ensures Step(b, Transition(id, toState, version)).Done? ==>
      After(b, Transition(id, toState, version)) ==
        b.(items := b.items[id := b.items[id].(state := toState, version := version + 1)])
  {
    var states := b.projects[b.items[id].projectId].states;
    var i, j := IndexOf(states, b.items[id].state), IndexOf(states, toState);
    OnlyPlace(b, id, b.items[id].state);
    OnlyPlace(b, id, toState);
    SameOthers(b, id, toState);
    DoneIsNothingOpen(b, id);
    assert (exists k, m :: InPlace(b, id, k) && HasPlace(b, id, toState, m) && MayGo(b, id, k, m)) <==>
        HasPlace(b, id, toState, j) && MayGo(b, id, i, j) by {
      assert InPlace(b, id, i);
    }
  }

  // -------------------------------------------------------------- over whole runs

  /** At board `b` command `c` moves the item forward to place `k`, and nothing is open before it. */
  ghost predicate GoesForward(b: Board, c: Command, id: Id, k: int) {
    InPlace(b, id, k - 1) && InPlace(After(b, c), id, k) && NothingOpenBefore(b, id)
  }

  ghost predicate WentAt(cs: seq<Command>, id: Id, k: int, m: int) {
    0 <= m < |cs| && GoesForward(Run(EMPTY, cs[..m]), cs[m], id, k)
  }

  ghost predicate WentTo(cs: seq<Command>, id: Id, k: int) {
    exists m :: WentAt(cs, id, k, m)
  }

  ghost predicate WentUpTo(cs: seq<Command>, id: Id, i: int) {
    forall k :: 1 <= k <= i ==> WentTo(cs, id, k)
  }

  lemma {:induction false} RunThen(b: Board, cs: seq<Command>, last: Command)
    ensures Run(b, cs + [last]) == After(Run(b, cs), last)
    decreases |cs|
  {
    if cs == [] {
      assert cs + [last] == [last] && [last][1..] == [];
    } else {
      assert (cs + [last])[1..] == cs[1..] + [last];
      RunThen(After(b, cs[0]), cs[1..], last);
    }
  }

  lemma StillWent(before: seq<Command>, c: Command, id: Id, i: int)
    requires WentUpTo(before, id, i)
    ensures WentUpTo(before + [c], id, i)
  {
    forall k | 1 <= k <= i ensures WentTo(before + [c], id, k) {
      assert WentTo(before, id, k);
      var m :| WentAt(before, id, k, m);
      assert (before + [c])[..m] == before[..m];
      assert WentAt(before + [c], id, k, m);
    }
  }

  lemma WentLast(before: seq<Command>, b: Board, c: Command, id: Id, i: int)
    requires b == Run(EMPTY, before) && GoesForward(b, c, id, i)
    ensures WentTo(before + [c], id, i)
  {
    assert (before + [c])[..|before|] == before;
    assert WentAt(before + [c], id, i, |before|);
  }

  lemma NewItemIsFirst(b: Board, c: Command, id: Id, i: int)
    requires Inv(b) && c.CreateItem? && Step(b, c).Done? && c.id == id && InPlace(After(b, c), id, i)
    ensures i == 0
  {
    assert WellFormedProject(b.projects[c.projectId]);
  }

  lemma OthersStay(b: Board, c: Command, id: Id, i: int)
    requires Inv(b) && Step(b, c).Done? && InPlace(After(b, c), id, i)
    requires !(c.Transition? && c.itemId == id) && !(c.CreateItem? && c.id == id)
    ensures InPlace(b, id, i)
  {
  }

  lemma MovedByOne(b: Board, c: Command, id: Id, i: int)
    requires Inv(b) && c.Transition? && c.itemId == id && Step(b, c).Done? && InPlace(After(b, c), id, i)
    ensures InPlace(b, id, i + 1) || GoesForward(b, c, id, i)
  {
    TransitionExactly(b, id, c.toState, c.expectedVersion);
    var k, m :| InPlace(b, id, k) && HasPlace(b, id, c.toState, m) && MayGo(b, id, k, m);
    OnlyPlace(b, id, c.toState);
  }

  /** Main result: whenever an item stands beyond the first state, for each state up to its own there was a moment in
      the run at which it moved there from the one before, and at that moment every dependency stored into it had a
      complete predecessor. */
  lemma {:induction false} ForwardOnlyAfterPredecessors(cs: seq<Command>, id: Id, i: int)
    requires InPlace(Run(EMPTY, cs), id, i)
    ensures WentUpTo(cs, id, i)
    decreases |cs|
  {
    if cs != [] {
      var before, c := cs[..|cs| - 1], cs[|cs| - 1];
      assert cs == before + [c];
      RunThen(EMPTY, before, c);
      var k := EarlierPlace(before, c, id, i);
      if InPlace(Run(EMPTY, before), id, k) {
        ForwardOnlyAfterPredecessors(before, id, k);
        StillWent(before, c, id, k);
      }
    }
  }

  /** The place before the last command, which is no lower unless that command moved the item. */
  lemma EarlierPlace(before: seq<Command>, c: Command, id: Id, i: int) returns (k: int)
    requires InPlace(After(Run(EMPTY, before), c), id, i)
    ensures InPlace(Run(EMPTY, before), id, k) || i == 0
    ensures i > 0 ==> k >= i || (k == i - 1 && WentTo(before + [c], id, i))
  {
    var b := Run(EMPTY, before);
    BoardIsSound(before);
    k := i;
    if Step(b, c).Done? {
      if c.CreateItem? && c.id == id {
        NewItemIsFirst(b, c, id, i);
      } else if c.Transition? && c.itemId == id {
        MovedByOne(b, c, id, i);
        if InPlace(b, id, i + 1) {
          k := i + 1;
        } else {
          k := i - 1;
          WentLast(before, b, c, id, i);
        }
      } else {
        OthersStay(b, c, id, i);
      }
    }
  }

  lemma BoardIsSound(cs: seq<Command>)
    ensures Inv(Run(EMPTY, cs))
  {
    EmptyBoard();
    RunsKeepInv(EMPTY, cs);
  }
}
