/** Workflow step graphs, and the work-item board: projects, items, dependencies and work limits. */
module TaskBoard {
  import opened CycleCheck
  import opened Options
  import opened Sorting

  type Id = nat
  type Name = string
  type Pair = (Id, Id)

  const SCAN_LIMIT := 10_000

  datatype Refusal = NotFound | IdTaken | BadStates | BadLimits | NotOneProject | Cycle | NotAdjacent
                   | PredecessorOpen | LimitFull | Stale | Saturated
  datatype Outcome = Done(board: Board) | Refused(reason: Refusal)

  datatype Project = Project(states: seq<Name>, limits: map<Name, int>)
  {
    function Initial(): Name requires states != [] { states[0] }
    function Terminal(): Name requires states != [] { states[|states| - 1] }
  }
  datatype Item = Item(projectId: Id, state: Name, version: nat)
  datatype Edge = Edge(projectId: Id, predecessor: Id, successor: Id)
  datatype Board = Board(projects: map<Id, Project>, items: map<Id, Item>, edges: seq<Edge>)

  datatype Command =
    | CreateProject(id: Id, states: seq<Name>, limits: map<Name, int>)
    | CreateItem(id: Id, projectId: Id)
    | Link(projectId: Id, predecessor: Id, successor: Id)
    | Transition(itemId: Id, toState: Name, expectedVersion: nat)

  // ----------------------------------------------------------- edges as a graph

  function PairsOf(edges: seq<Edge>, projectId: Id): (r: seq<Pair>)
    ensures forall a: Id, b: Id :: (a, b) in r <==> Edge(projectId, a, b) in edges
  {
    if edges == [] then []
    else
      assert edges == [edges[0]] + edges[1..];
      var first := if edges[0].projectId == projectId then [(edges[0].predecessor, edges[0].successor)] else [];
      first + PairsOf(edges[1..], projectId)
  }

  ghost predicate ClosedWalk(pairs: seq<Pair>, p: seq<Id>) {
    |p| >= 2 && p[0] == p[|p| - 1] && forall i :: 0 <= i < |p| - 1 ==> (p[i], p[i + 1]) in pairs
  }

  /** Following the pairs never leads back to where it started. */
  ghost predicate Acyclic(pairs: seq<Pair>) {
    forall p: seq<Id> :: !ClosedWalk(pairs, p)
  }

  ghost predicate Lists<T(!new)>(adj: Adjacency<T>, pairs: seq<(T, T)>) {
    && (forall a, b :: b in Successors(adj, a) <==> (a, b) in pairs)
  }

  method BuildAdjacency<T(!new, ==)>(pairs: seq<(T, T)>) returns (adj: Adjacency<T>)
    ensures Lists(adj, pairs)
  {
    adj := map[];
    var i := 0;
    while i < |pairs|
      invariant 0 <= i <= |pairs|
      invariant Lists(adj, pairs[..i])
    {
      var (from, to) := pairs[i];
      ghost var before := adj;
      adj := adj[from := Successors(adj, from) + [to]];
      assert pairs[..i + 1] == pairs[..i] + [pairs[i]];
      forall a, b ensures b in Successors(adj, a) <==> (a, b) in pairs[..i + 1] {
        assert b in Successors(before, a) <==> (a, b) in pairs[..i];
      }
      i := i + 1;
    }
    assert pairs[..i] == pairs;
  }

  lemma ListsSameCycles(adj: Adjacency<Id>, pairs: seq<Pair>)
    requires Lists(adj, pairs)
    ensures HasCycle(adj) <==> !Acyclic(pairs)
  {
    forall p: seq<Id> ensures IsCycle(adj, p) <==> ClosedWalk(pairs, p) {
    }
  }

  method KeyList<T(!new, ==)>(adj: Adjacency<T>) returns (keys: seq<T>)
    ensures forall n :: n in keys <==> n in adj
  {
    keys := [];
    var rest := adj.Keys;
    while rest != {}
      invariant rest <= adj.Keys
      invariant forall n :: n in keys <==> n in adj && n !in rest
      decreases rest
    {
      var n :| n in rest;
      keys, rest := keys + [n], rest - {n};
    }
  }

  /** The check `dependency-link` runs before it stores an edge. */
  method EdgesContainCycle(pairs: seq<Pair>) returns (throws: bool)
    ensures throws <==> !Acyclic(pairs)
  {
    var adj := BuildAdjacency(pairs);
    var keys := KeyList(adj);
    throws := ContainsCycle(adj, keys);
    ListsSameCycles(adj, pairs);
  }

  // ------------------------------------------------------------ workflow steps

  /** `dependsOn` may be left out, but a list that is given must name something. */
  datatype StepSpec = StepSpec(key: Name, dependsOn: Option<seq<Name>>)
  {
    predicate EmptyList() { dependsOn == Some([]) }

    /** The dependencies, each once. */
    function Needs(): (r: seq<Name>)
      ensures forall d :: d in r <==> dependsOn.Some? && d in dependsOn.value
    {
      if dependsOn.Some? then Unique(dependsOn.value) else []
    }
  }

  datatype WorkflowVerdict = Acceptable | DuplicateKey | BadDependency | CyclicSteps

  ghost predicate DistinctSteps(steps: seq<StepSpec>) {
    forall i, j :: 0 <= i < j < |steps| ==> steps[i].key != steps[j].key
  }

  ghost predicate Declared(steps: seq<StepSpec>) {
    forall i, d :: 0 <= i < |steps| && d in steps[i].Needs() ==>
      d != steps[i].key && exists j :: 0 <= j < |steps| && steps[j].key == d
  }

  ghost predicate WellListed(steps: seq<StepSpec>) {
    forall i :: 0 <= i < |steps| ==> !steps[i].EmptyList()
  }

  ghost predicate NamesOthers(step: StepSpec, keys: seq<Name>) {
    forall d :: d in step.Needs() ==> d in keys && d != step.key
  }

  ghost predicate DependsOn(steps: seq<StepSpec>, key: Name, dependency: Name) {
    exists i :: 0 <= i < |steps| && steps[i].key == key && dependency in steps[i].Needs()
  }

  ghost predicate DependsAlong(steps: seq<StepSpec>, p: seq<Name>) {
    forall k :: 0 <= k < |p| - 1 ==> DependsOn(steps, p[k], p[k + 1])
  }

  ghost predicate AcyclicSteps(steps: seq<StepSpec>) {
    forall p: seq<Name> :: !(|p| >= 2 && p[0] == p[|p| - 1] && DependsAlong(steps, p))
  }

  ghost predicate KeysOf(steps: seq<StepSpec>, keys: seq<Name>) {
    |keys| == |steps| && forall i :: 0 <= i < |steps| ==> keys[i] == steps[i].key
  }

  ghost predicate KeyAmong(steps: seq<StepSpec>, count: nat, n: Name)
    requires count <= |steps|
  {
    exists j :: 0 <= j < count && steps[j].key == n
  }

  /** The edges collected from the first `count` steps. */
  ghost predicate EdgesUpTo(steps: seq<StepSpec>, count: nat, edges: map<Name, seq<Name>>)
    requires count <= |steps|
  {
    && (forall n :: n in edges <==> KeyAmong(steps, count, n))
    && forall j :: 0 <= j < count ==> steps[j].key in edges && edges[steps[j].key] == steps[j].Needs()
  }

  ghost predicate EdgesOf(steps: seq<StepSpec>, edges: map<Name, seq<Name>>) {
    EdgesUpTo(steps, |steps|, edges)
  }

  lemma DeclaredIffNamesOthers(steps: seq<StepSpec>, keys: seq<Name>)
    requires KeysOf(steps, keys)
    ensures Declared(steps) <==> forall j :: 0 <= j < |steps| ==> NamesOthers(steps[j], keys)
  {
    forall d ensures d in keys <==> exists j :: 0 <= j < |steps| && steps[j].key == d {
      if d in keys {
        var j :| 0 <= j < |keys| && keys[j] == d;
        assert steps[j].key == d;
      }
      if j :| 0 <= j < |steps| && steps[j].key == d {
        assert keys[j] == d;
      }
    }
    if Declared(steps) {
      forall j, d | 0 <= j < |steps| && d in steps[j].Needs() ensures d in keys && d != steps[j].key {
      }
    }
  }

  /** Collects each step's dependencies, unless one of them names an undeclared step or the step itself. */
  method StepEdges(steps: seq<StepSpec>, keys: seq<Name>) returns (ok: bool, edges: map<Name, seq<Name>>)
    requires DistinctSteps(steps) && KeysOf(steps, keys)
    ensures ok <==> WellListed(steps) && Declared(steps)
    ensures ok ==> EdgesOf(steps, edges)
  {
    DeclaredIffNamesOthers(steps, keys);
    edges := map[];
    var i := 0;
    while i < |steps|
      invariant 0 <= i <= |steps|
      invariant forall j :: 0 <= j < i ==> !steps[j].EmptyList() && NamesOthers(steps[j], keys)
      invariant EdgesUpTo(steps, i, edges)
    {
      var step := steps[i];
      if step.EmptyList() {
        return false, edges;
      }
      if exists d :: d in step.Needs() && (d !in keys || d == step.key) {
        assert !NamesOthers(steps[i], keys);
        return false, edges;
      }
      assert NamesOthers(step, keys);
      ghost var before := edges;
      edges := edges[step.key := step.Needs()];
      OneMoreStep(steps, i, before);
      i := i + 1;
    }
    ok := true;
  }

  lemma OneMoreStep(steps: seq<StepSpec>, i: nat, edges: map<Name, seq<Name>>)
    requires DistinctSteps(steps) && i < |steps| && EdgesUpTo(steps, i, edges)
    ensures EdgesUpTo(steps, i + 1, edges[steps[i].key := steps[i].Needs()])
  {
    var more := edges[steps[i].key := steps[i].Needs()];
    forall n ensures n in more <==> KeyAmong(steps, i + 1, n) {
      assert KeyAmong(steps, i + 1, n) <==> KeyAmong(steps, i, n) || steps[i].key == n;
    }
  }

  /** `workflow-version-create`: accepted exactly when keys are distinct, no dependency list is given empty,
      dependencies name other declared steps, and no step transitively depends on itself. */
  method CheckWorkflow(steps: seq<StepSpec>) returns (verdict: WorkflowVerdict)
    ensures verdict.Acceptable? <==> DistinctSteps(steps) && WellListed(steps) && Declared(steps) && AcyclicSteps(steps)
    ensures verdict.CyclicSteps? ==> DistinctSteps(steps) && Declared(steps)
  {
    var keys := seq(|steps|, i requires 0 <= i < |steps| => steps[i].key);
    if exists i, j :: 0 <= i < j < |steps| && steps[i].key == steps[j].key {
      return DuplicateKey;
    }
    var ok, edges := StepEdges(steps, keys);
    if !ok {
      return BadDependency;
    }
    SameNames(steps, keys, edges);
    StepGraph(steps, edges);
    var throws := ContainsCycle(edges, keys);
    verdict := if throws then CyclicSteps else Acceptable;
  }

  lemma SameNames(steps: seq<StepSpec>, keys: seq<Name>, edges: map<Name, seq<Name>>)
    requires KeysOf(steps, keys) && EdgesOf(steps, edges)
    ensures forall n :: n in keys <==> n in edges
  {
    forall n ensures n in keys <==> n in edges {
      if n in keys {
        var j :| 0 <= j < |keys| && keys[j] == n;
        assert steps[j].key == n;
      }
      if n in edges {
        var j :| 0 <= j < |steps| && steps[j].key == n;
        assert keys[j] == n;
      }
    }
  }

  lemma StepGraph(steps: seq<StepSpec>, edges: map<Name, seq<Name>>)
    requires EdgesOf(steps, edges)
    ensures HasCycle(edges) <==> !AcyclicSteps(steps)
  {
    forall p: seq<Name> ensures IsPath(edges, p) <==> DependsAlong(steps, p) {
      forall k | 0 <= k < |p| - 1
        ensures p[k + 1] in Successors(edges, p[k]) <==> DependsOn(steps, p[k], p[k + 1]) {
        if p[k] in edges {
          var j :| 0 <= j < |steps| && steps[j].key == p[k];
          assert edges[p[k]] == steps[j].Needs();
        }
      }
    }
    if HasCycle(edges) {
      var p: seq<Name> :| IsCycle(edges, p);
      assert DependsAlong(steps, p);
    }
    if !AcyclicSteps(steps) {
      var p: seq<Name> :| |p| >= 2 && p[0] == p[|p| - 1] && DependsAlong(steps, p);
      assert IsCycle(edges, p);
    }
  }

  // ------------------------------------------------------------- board commands

  function Unique(xs: seq<Name>): (r: seq<Name>)
    ensures forall x :: x in r <==> x in xs
  {
    if xs == [] then []
    else
      assert xs == xs[..|xs| - 1] + [xs[|xs| - 1]];
      var r := Unique(xs[..|xs| - 1]); if xs[|xs| - 1] in r then r else r + [xs[|xs| - 1]]
  }

  function IndexOf(states: seq<Name>, s: Name): (i: int)
    ensures -1 <= i < |states|
    ensures i >= 0 ==> states[i] == s
    ensures i < 0 <==> s !in states
  {
    if states == [] then -1
    else if states[0] == s then 0
    else
      assert states == [states[0]] + states[1..];
      var i := IndexOf(states[1..], s); if i < 0 then -1 else i + 1
  }

  function ItemsIn(items: map<Id, Item>, projectId: Id, state: Name): set<Id> {
    set id | id in items && items[id].projectId == projectId && items[id].state == state
  }

  predicate PredecessorsDone(b: Board, itemId: Id, projectId: Id, terminal: Name) {
    forall e :: e in b.edges && e.projectId == projectId && e.successor == itemId ==>
      e.predecessor in b.items && b.items[e.predecessor].state == terminal
  }

  ghost function Step(b: Board, c: Command): Outcome {
    match c
    case CreateProject(id, raw, limits) =>
      var states := Unique(raw);
      if |states| < 2 then Refused(BadStates)
      else if exists s :: s in limits && (s !in states || limits[s] < 1) then Refused(BadLimits)
      else if id in b.projects then Refused(IdTaken)
      else Done(b.(projects := b.projects[id := Project(states, limits)]))
    case CreateItem(id, projectId) =>
      if projectId !in b.projects || b.projects[projectId].states == [] then Refused(NotFound)
      else if id in b.items then Refused(IdTaken)
      else Done(b.(items := b.items[id := Item(projectId, b.projects[projectId].Initial(), 1)]))
    case Link(projectId, predecessor, successor) =>
      if projectId !in b.projects || predecessor !in b.items || successor !in b.items then Refused(NotFound)
      else if predecessor == successor then Refused(NotOneProject)
      else if b.items[predecessor].projectId != projectId || b.items[successor].projectId != projectId then
        Refused(NotOneProject)
      else if |b.edges| > SCAN_LIMIT then Refused(Saturated)
      else if !Acyclic(PairsOf(b.edges, projectId) + [(predecessor, successor)]) then Refused(Cycle)
      else Done(b.(edges := b.edges + [Edge(projectId, predecessor, successor)]))
    case Transition(itemId, toState, expectedVersion) =>
      if itemId !in b.items || b.items[itemId].projectId !in b.projects then Refused(NotFound)
      else
        var item := b.items[itemId];
        var project := b.projects[item.projectId];
        var from, to := IndexOf(project.states, item.state), IndexOf(project.states, toState);
        var limit := if toState in project.limits then project.limits[toState] else 0;
        if to < 0 || (to - from != 1 && from - to != 1) then Refused(NotAdjacent)
        else if to > from && |b.edges| > SCAN_LIMIT then Refused(Saturated)
        else if to > from && !PredecessorsDone(b, itemId, item.projectId, project.Terminal()) then
          Refused(PredecessorOpen)
        else if limit != 0 && |b.items| > SCAN_LIMIT then Refused(Saturated)
        else if limit != 0 && |ItemsIn(b.items, item.projectId, toState) - {itemId}| >= limit then Refused(LimitFull)
        else if expectedVersion < 1 || expectedVersion != item.version then Refused(Stale)
        else Done(b.(items := b.items[itemId := Item(item.projectId, toState, expectedVersion + 1)]))
  }

  ghost function After(b: Board, c: Command): Board {
    match Step(b, c) case Done(next) => next case Refused(_) => b
  }

  ghost function Run(b: Board, cs: seq<Command>): Board
    decreases |cs|
  {
    if cs == [] then b else Run(After(b, cs[0]), cs[1..])
  }

  const EMPTY := Board(map[], map[], [])

  // ---------------------------------------------------------------- invariants

  ghost predicate WellFormedProject(p: Project) {
    && |p.states| >= 2
    && Distinct(p.states)
    && forall s :: s in p.limits ==> s in p.states && p.limits[s] >= 1
  }

  ghost predicate Projects(b: Board) {
    && (forall id :: id in b.projects ==> WellFormedProject(b.projects[id]))
    && forall id :: id in b.items ==>
         b.items[id].projectId in b.projects && b.items[id].state in b.projects[b.items[id].projectId].states
  }

  /** Each project's dependencies form a directed acyclic graph over its own items. */
  ghost predicate Dags(b: Board) {
    && (forall e :: e in b.edges ==>
          && e.predecessor in b.items && e.successor in b.items && e.predecessor != e.successor
          && b.items[e.predecessor].projectId == e.projectId == b.items[e.successor].projectId)
    && forall projectId :: Acyclic(PairsOf(b.edges, projectId))
  }

  predicate WithinLimit(b: Board, projectId: Id, state: Name)
    requires projectId in b.projects && state in b.projects[projectId].limits
  {
    |ItemsIn(b.items, projectId, state)| <= b.projects[projectId].limits[state]
  }

  /** Work limits hold on every limited state but the one items are created in. */
  ghost predicate Limits(b: Board)
    requires Projects(b)
  {
    forall projectId, s ::
      projectId in b.projects && s in b.projects[projectId].limits && s != b.projects[projectId].Initial() ==>
      WithinLimit(b, projectId, s)
  }

  ghost predicate Inv(b: Board) {
    Projects(b) && Dags(b) && Limits(b)
  }

  lemma {:induction false} UniqueIsDistinct(xs: seq<Name>)
    ensures Distinct(Unique(xs))
  {
    if xs != [] {
      UniqueIsDistinct(xs[..|xs| - 1]);
      var r, x := Unique(xs[..|xs| - 1]), xs[|xs| - 1];
      if x !in r {
        assert Unique(xs) == r + [x];
        assert forall i :: 0 <= i < |r| ==> r[i] in r;
      }
    }
  }

  lemma {:induction false} PairsOfAppend(edges: seq<Edge>, e: Edge, projectId: Id)
    ensures PairsOf(edges + [e], projectId)
         == PairsOf(edges, projectId) + if e.projectId == projectId then [(e.predecessor, e.successor)] else []
  {
    if edges == [] {
      assert edges + [e] == [e];
      assert PairsOf([e][1..], projectId) == [];
    } else {
      assert (edges + [e])[1..] == edges[1..] + [e];
      PairsOfAppend(edges[1..], e, projectId);
    }
  }

  lemma LinkKeepsDags(b: Board, c: Command)
    requires Inv(b) && c.Link? && Step(b, c).Done?
    ensures Dags(After(b, c))
  {
    var e := Edge(c.projectId, c.predecessor, c.successor);
    forall projectId ensures Acyclic(PairsOf(b.edges + [e], projectId)) {
      PairsOfAppend(b.edges, e, projectId);
      assert PairsOf(b.edges, projectId) + [] == PairsOf(b.edges, projectId);
    }
  }

  lemma CreateKeepsLimits(b: Board, c: Command)
    requires Inv(b) && (c.CreateItem? || c.CreateProject?) && Step(b, c).Done?
    requires Projects(After(b, c))
    ensures Limits(After(b, c))
  {
    var n := After(b, c);
    forall projectId, s | projectId in n.projects && s in n.projects[projectId].limits
      && s != n.projects[projectId].Initial()
      ensures WithinLimit(n, projectId, s) {
      if projectId in b.projects {
        assert ItemsIn(n.items, projectId, s) == ItemsIn(b.items, projectId, s);
        assert WithinLimit(b, projectId, s);
      } else {
        assert ItemsIn(n.items, projectId, s) == {};
      }
    }
  }

  lemma SubsetCount<T>(a: set<T>, b: set<T>)
    requires a <= b
    ensures |a| <= |b|
  {
    assert b == a + (b - a);
  }

  /** What an accepted transition does: one item moves, into a state with room for it. */
  ghost predicate Moves(b: Board, n: Board, id: Id, to: Name) {
    && id in b.items && id in n.items && n.projects == b.projects && n.items == b.items[id := n.items[id]]
    && n.items[id].projectId == b.items[id].projectId && n.items[id].state == to && b.items[id].projectId in b.projects
    && var limits := b.projects[b.items[id].projectId].limits;
    to in limits && limits[to] != 0 ==> |ItemsIn(b.items, b.items[id].projectId, to) - {id}| < limits[to]
  }

  lemma TransitionMoves(b: Board, c: Command)
    requires c.Transition? && Step(b, c).Done?
    ensures Moves(b, After(b, c), c.itemId, c.toState)
  {
  }

  lemma MovedCount(b: Board, n: Board, id: Id, to: Name, projectId: Id, s: Name)
    requires Projects(b) && Moves(b, n, id, to)
    requires projectId in b.projects && s in b.projects[projectId].limits
    ensures projectId == b.items[id].projectId && s == to ==> WithinLimit(n, projectId, s)
    ensures !(projectId == b.items[id].projectId && s == to) && WithinLimit(b, projectId, s) ==>
      WithinLimit(n, projectId, s)
  {
    var was, now := ItemsIn(b.items, projectId, s), ItemsIn(n.items, projectId, s);
    if projectId == b.items[id].projectId && s == to {
      assert now == was - {id} + {id};
    } else {
      assert now <= was;
      SubsetCount(now, was);
    }
  }

  lemma TransitionCount(b: Board, c: Command, projectId: Id, s: Name)
    requires Projects(b) && c.Transition? && Step(b, c).Done?
    requires projectId in b.projects && s in b.projects[projectId].limits
    ensures projectId in After(b, c).projects && s in After(b, c).projects[projectId].limits
    ensures projectId == b.items[c.itemId].projectId && s == c.toState ==> WithinLimit(After(b, c), projectId, s)
    ensures !(projectId == b.items[c.itemId].projectId && s == c.toState) && WithinLimit(b, projectId, s) ==>
      WithinLimit(After(b, c), projectId, s)
  {
    TransitionMoves(b, c);
    MovedCount(b, After(b, c), c.itemId, c.toState, projectId, s);
  }

  lemma CreateProjectKeepsInv(b: Board, c: Command)
    requires Inv(b) && c.CreateProject? && Step(b, c).Done?
    ensures Inv(After(b, c))
  {
    UniqueIsDistinct(c.states);
    assert WellFormedProject(After(b, c).projects[c.id]);
    assert forall k :: k in b.items ==> b.items[k].projectId in b.projects;
    CreateKeepsLimits(b, c);
  }

  lemma CreateItemKeepsInv(b: Board, c: Command)
    requires Inv(b) && c.CreateItem? && Step(b, c).Done?
    ensures Inv(After(b, c))
  {
    CreateKeepsLimits(b, c);
  }

  lemma LinkKeepsInv(b: Board, c: Command)
    requires Inv(b) && c.Link? && Step(b, c).Done?
    ensures Inv(After(b, c))
  {
    LinkKeepsDags(b, c);
    var n := After(b, c);
    forall projectId, s | projectId in n.projects && s in n.projects[projectId].limits
      && s != n.projects[projectId].Initial()
      ensures WithinLimit(n, projectId, s) {
      assert WithinLimit(b, projectId, s);
    }
  }

  lemma TransitionKeepsInv(b: Board, c: Command)
    requires Inv(b) && c.Transition? && Step(b, c).Done?
    ensures Inv(After(b, c))
  {
    var n := After(b, c);
    assert Projects(n) && Dags(n);
    forall projectId, s | projectId in n.projects && s in n.projects[projectId].limits
      && s != n.projects[projectId].Initial()
      ensures WithinLimit(n, projectId, s) {
      assert WithinLimit(b, projectId, s);
      TransitionCount(b, c, projectId, s);
    }
  }

  lemma StepKeepsInv(b: Board, c: Command)
    requires Inv(b)
    ensures Inv(After(b, c))
  {
    if Step(b, c).Done? {
      match c
      case CreateProject(_, _, _) => CreateProjectKeepsInv(b, c);
      case CreateItem(_, _) => CreateItemKeepsInv(b, c);
      case Link(_, _, _) => LinkKeepsInv(b, c);
      case Transition(_, _, _) => TransitionKeepsInv(b, c);
    }
  }

  /** Main result: after any run, every project's dependencies form a DAG over its own items and every work
      limit holds on every state but the initial one, through forward and backward moves alike. */
  lemma {:induction false} RunsKeepInv(b: Board, cs: seq<Command>)
    requires Inv(b)
    ensures Inv(Run(b, cs))
    decreases |cs|
  {
    if cs != [] {
      StepKeepsInv(b, cs[0]);
      RunsKeepInv(After(b, cs[0]), cs[1..]);
    }
  }

  lemma EmptyBoard()
    ensures Inv(EMPTY)
  {
    forall projectId ensures Acyclic(PairsOf(EMPTY.edges, projectId)) {
      assert PairsOf([], projectId) == [];
      forall p: seq<Id> ensures !ClosedWalk([], p) {
        if |p| >= 2 { assert (p[0], p[0 + 1]) !in []; }
      }
    }
  }

  ghost predicate WithinProject(b: Board, e: Edge) {
    && e.predecessor in b.items && e.successor in b.items
    && b.items[e.predecessor].projectId == e.projectId == b.items[e.successor].projectId
  }

  /** Main result: on every board that any run of commands can make, each project's dependencies are acyclic and lie
      within it, and every limited state but the initial one holds no more items than its limit. */
  lemma BoardsStayAcyclicAndLimited(cs: seq<Command>, projectId: Id)
    ensures var b := Run(EMPTY, cs);
      && Acyclic(PairsOf(b.edges, projectId)) && (forall e :: e in b.edges ==> WithinProject(b, e))
      && Projects(b) && Limits(b)
  {
    EmptyBoard();
    RunsKeepInv(EMPTY, cs);
  }

  ghost predicate LeadsTo(pairs: seq<Pair>, from: Id, to: Id) {
    exists p: seq<Id> :: Leads(pairs, p, from, to)
  }

  /** A new edge is refused as cyclic exactly when its successor already leads to its predecessor. */
  lemma LinkRefusedIffPathBack(b: Board, projectId: Id, predecessor: Id, successor: Id)
    requires Inv(b)
    requires projectId in b.projects && predecessor in b.items && successor in b.items && predecessor != successor
    requires b.items[predecessor].projectId == projectId == b.items[successor].projectId
    requires |b.edges| <= SCAN_LIMIT
    ensures Step(b, Link(projectId, predecessor, successor)) == Refused(Cycle)
       <==> LeadsTo(PairsOf(b.edges, projectId), successor, predecessor)
  {
    var pairs := PairsOf(b.edges, projectId);
    var more := pairs + [(predecessor, successor)];
    if LeadsTo(pairs, successor, predecessor) {
      var p: seq<Id> :| Leads(pairs, p, successor, predecessor);
      var q := [predecessor] + p;
      forall i | 0 <= i < |q| - 1 ensures (q[i], q[i + 1]) in more {
        if i > 0 { assert (p[i - 1], p[i]) in pairs; }
      }
      assert ClosedWalk(more, q);
      assert !Acyclic(more);
    }
    if !Acyclic(more) {
      var q: seq<Id> :| ClosedWalk(more, q);
      assert Acyclic(pairs);
      var p := CutAtNewEdge(pairs, (predecessor, successor), q);
      assert Leads(pairs, p, successor, predecessor);
    }
  }

  ghost predicate Leads(pairs: seq<Pair>, p: seq<Id>, from: Id, to: Id) {
    |p| >= 1 && p[0] == from && p[|p| - 1] == to && forall i :: 0 <= i < |p| - 1 ==> (p[i], p[i + 1]) in pairs
  }

  /** A cycle that needs the new edge contains an old path from the edge's head back to its tail. */
  lemma CutAtNewEdge(pairs: seq<Pair>, e: Pair, q: seq<Id>) returns (p: seq<Id>)
    requires Acyclic(pairs) && ClosedWalk(pairs + [e], q)
    ensures Leads(pairs, p, e.1, e.0)
  {
    assert !ClosedWalk(pairs, q);
    var i :| 0 <= i < |q| - 1 && (q[i], q[i + 1]) !in pairs;
    // Start the closed walk just after the new edge: q[i+1], ..., end = start, ..., q[i].
    var r := q[i + 1..] + q[1..i + 1];
    forall k | 0 <= k < |r| - 1 ensures (r[k], r[k + 1]) in pairs + [e] {
      var m := |q| - i - 1;
      if k < m - 1 {
        assert (q[i + 1 + k], q[i + 2 + k]) in pairs + [e];
      } else if k >= m {
        assert (q[k - m + 1], q[k - m + 2]) in pairs + [e];
      } else {
        assert (q[0], q[1]) in pairs + [e];
      }
    }
    p := LastReturn(pairs, e, r);
  }

  /** Of a walk from the head to the tail of the new edge, keep the part after its last use of that edge. */
  lemma {:induction false} LastReturn(pairs: seq<Pair>, e: Pair, r: seq<Id>) returns (p: seq<Id>)
    requires Leads(pairs + [e], r, e.1, e.0)
    ensures Leads(pairs, p, e.1, e.0)
    decreases |r|
  {
    if exists i :: 0 <= i < |r| - 1 && (r[i], r[i + 1]) !in pairs {
      var i :| 0 <= i < |r| - 1 && (r[i], r[i + 1]) !in pairs;
      p := LastReturn(pairs, e, r[i + 1..]);
    } else {
      p := r;
    }
  }

  /** The initial state is different: creation does not look at its limit. */
  lemma InitialLimitCanBeExceeded()
    ensures var b :=
      Run(EMPTY, [CreateProject(0, ["todo", "done"], map["todo" := 1]), CreateItem(1, 0), CreateItem(2, 0)]);
      0 in b.projects && b.projects[0].Initial() == "todo" && "todo" in b.projects[0].limits
        && !WithinLimit(b, 0, "todo")
  {
    var states := ["todo", "done"];
    UniqueOfTwo();
    var c0, c1, c2 := CreateProject(0, states, map["todo" := 1]), CreateItem(1, 0), CreateItem(2, 0);
    var project := Project(states, map["todo" := 1]);
    var b0 := Board(map[0 := project], map[], []);
    var b1 := b0.(items := map[1 := Item(0, "todo", 1)]);
    var b2 := b0.(items := map[1 := Item(0, "todo", 1), 2 := Item(0, "todo", 1)]);
    assert After(EMPTY, c0) == b0;
    assert After(b0, c1) == b1;
    assert After(b1, c2) == b2;
    ThreeSteps(EMPTY, c0, c1, c2);
    assert ItemsIn(b2.items, 0, "todo") == {1, 2};
  }

  lemma UniqueOfTwo()
    ensures Unique(["todo", "done"]) == ["todo", "done"]
  {
    var states := ["todo", "done"];
    assert states[..1] == ["todo"] && ["todo"][..0] == [];
    assert Unique(["todo"]) == ["todo"];
  }

  lemma ThreeSteps(b: Board, c0: Command, c1: Command, c2: Command)
    ensures Run(b, [c0, c1, c2]) == After(After(After(b, c0), c1), c2)
  {
    assert [c0, c1, c2][1..] == [c1, c2] && [c1, c2][1..] == [c2] && [c2][1..] == [];
    var b1 := After(b, c0);
    var b2 := After(b1, c1);
    assert Run(b1, [c1, c2]) == Run(b2, [c2]);
    assert Run(b2, [c2]) == Run(After(b2, c2), []);
  }

  lemma CreatedCount(b: Board, c: Command, projectId: Id, s: Name)
    requires c.CreateItem? && Step(b, c).Done? && c.projectId in b.projects
    ensures ItemsIn(After(b, c).items, projectId, s) ==
            ItemsIn(b.items, projectId, s) + (if c.projectId == projectId
              && s == b.projects[projectId].Initial() then {c.id} else {})
    ensures c.id !in b.items
  {
  }

  /** Exactly when the initial limit survives a creation: when the state still has room, which the caller can count.
      Transitions never break it. */
  lemma InitialLimitSurvivesIffRoom(b: Board, c: Command, projectId: Id)
    requires Inv(b) && Step(b, c).Done? && projectId in b.projects
    requires b.projects[projectId].Initial() in b.projects[projectId].limits
    requires WithinLimit(b, projectId, b.projects[projectId].Initial())
    ensures var p := b.projects[projectId]; var n := After(b, c);
      && projectId in n.projects && n.projects[projectId] == p
      && (WithinLimit(n, projectId, p.Initial()) <==>
           !(c.CreateItem? && c.projectId == projectId
             && |ItemsIn(b.items, projectId, p.Initial())| == p.limits[p.Initial()]))
  {
    var s := b.projects[projectId].Initial();
    match c
    case CreateItem(id, pid) =>
      CreatedCount(b, c, projectId, s);
      assert id !in ItemsIn(b.items, projectId, s);
    case Transition(_, _, _) => TransitionCount(b, c, projectId, s);
    case _ => assert After(b, c).items == b.items;
  }

  // ----------------------------------------------------- the engine's own form

  class TaskEngine {
    var projects: map<Id, Project>
    var items: map<Id, Item>
    var edges: seq<Edge>

    constructor ()
      ensures State() == EMPTY
    {
      projects, items, edges := map[], map[], [];
    }

    ghost function State(): Board
      reads this
    {
      Board(projects, items, edges)
    }

    method ProjectBlueprintCreate(id: Id, raw: seq<Name>, limits: map<Name, int>) returns (ghost out: Outcome, ok: bool)
      modifies this
      ensures out == Step(old(State()), CreateProject(id, raw, limits))
      ensures ok == out.Done? && State() == After(old(State()), CreateProject(id, raw, limits))
    {
      out := Step(State(), CreateProject(id, raw, limits));
      var states := Unique(raw);
      if |states| < 2 || (exists s :: s in limits && (s !in states || limits[s] < 1)) || id in projects {
        return out, false;
      }
      projects := projects[id := Project(states, limits)];
      ok := true;
    }

    method WorkItemCreate(id: Id, projectId: Id) returns (ghost out: Outcome, ok: bool)
      modifies this
      ensures out == Step(old(State()), CreateItem(id, projectId))
      ensures ok == out.Done? && State() == After(old(State()), CreateItem(id, projectId))
    {
      out := Step(State(), CreateItem(id, projectId));
      if projectId !in projects || projects[projectId].states == [] || id in items {
        return out, false;
      }
      items := items[id := Item(projectId, projects[projectId].Initial(), 1)];
      ok := true;
    }

    method DependencyLink(projectId: Id, predecessor: Id, successor: Id) returns (ghost out: Outcome, ok: bool)
      modifies this
      ensures out == Step(old(State()), Link(projectId, predecessor, successor))
      ensures ok == out.Done? && State() == After(old(State()), Link(projectId, predecessor, successor))
    {
      out := Step(State(), Link(projectId, predecessor, successor));
      if projectId !in projects || predecessor !in items || successor !in items {
        return out, false;
      }
      if predecessor == successor || items[predecessor].projectId != projectId
        || items[successor].projectId != projectId {
        return out, false;
      }
      if |edges| > SCAN_LIMIT {
        return out, false;
      }
      var throws := EdgesContainCycle(PairsOf(edges, projectId) + [(predecessor, successor)]);
      if throws {
        return out, false;
      }
      edges := edges + [Edge(projectId, predecessor, successor)];
      ok := true;
    }

    method WorkItemTransition(itemId: Id, toState: Name, expectedVersion: nat) returns (ghost out: Outcome, ok: bool)
      modifies this
      ensures out == Step(old(State()), Transition(itemId, toState, expectedVersion))
      ensures ok == out.Done? && State() == After(old(State()), Transition(itemId, toState, expectedVersion))
    {
      out := Step(State(), Transition(itemId, toState, expectedVersion));
      if itemId !in items || items[itemId].projectId !in projects {
        return out, false;
      }
      var item := items[itemId];
      var project := projects[item.projectId];
      var from, to := IndexOf(project.states, item.state), IndexOf(project.states, toState);
      if to < 0 || (to - from != 1 && from - to != 1) {
        return out, false;
      }
      if to > from {
        if |edges| > SCAN_LIMIT {
          return out, false;
        }
        var i := 0;
        while i < |edges|
          invariant 0 <= i <= |edges|
          invariant forall k :: 0 <= k < i ==> EdgeDone(items, edges[k], itemId, item.projectId, project.Terminal())
        {
          if !EdgeDone(items, edges[i], itemId, item.projectId, project.Terminal()) {
            assert edges[i] in edges;
            return out, false;
          }
          i := i + 1;
        }
        assert PredecessorsDone(State(), itemId, item.projectId, project.Terminal());
      }
      if toState in project.limits && project.limits[toState] != 0 {
        if |items| > SCAN_LIMIT {
          return out, false;
        }
        var count := |ItemsIn(items, item.projectId, toState) - {itemId}|;
        if count >= project.limits[toState] {
          return out, false;
        }
      }
      if expectedVersion < 1 || expectedVersion != item.version {
        return out, false;
      }
      items := items[itemId := Item(item.projectId, toState, expectedVersion + 1)];
      ok := true;
    }
  }

  predicate EdgeDone(items: map<Id, Item>, e: Edge, itemId: Id, projectId: Id, terminal: Name) {
    e.projectId == projectId && e.successor == itemId ==>
      e.predecessor in items && items[e.predecessor].state == terminal
  }
}
