/** The depth-first cycle check behind workflow versions and work-item dependencies: one recursive visit
    that grows the sets `seen` and `visiting` and throws when it meets a node it is still visiting. */
module CycleCheck {

  type Adjacency<T(==)> = map<T, seq<T>>

  function Successors<T>(adj: Adjacency<T>, node: T): seq<T> {
    if node in adj then adj[node] else []
  }

  ghost predicate IsPath<T>(adj: Adjacency<T>, p: seq<T>) {
    forall i :: 0 <= i < |p| - 1 ==> p[i + 1] in Successors(adj, p[i])
  }

  ghost predicate IsCycle<T>(adj: Adjacency<T>, p: seq<T>) {
    |p| >= 2 && IsPath(adj, p) && p[0] == p[|p| - 1]
  }

  ghost predicate HasCycle<T(!new)>(adj: Adjacency<T>) {
    exists p: seq<T> :: IsCycle(adj, p)
  }

  /** `order` certifies that its nodes lie on no cycle: successors always come earlier. */
  ghost predicate Finished<T(!new)>(adj: Adjacency<T>, order: seq<T>) {
    forall i :: 0 <= i < |order| ==> forall t :: t in Successors(adj, order[i]) ==> t in order[..i]
  }

  ghost predicate Holds<T(!new)>(s: set<T>, xs: seq<T>) {
    forall x :: x in s <==> x in xs
  }

  lemma {:induction false} PathDescends<T(!new)>(adj: Adjacency<T>, order: seq<T>, p: seq<T>, i: nat)
    requires Finished(adj, order) && IsPath(adj, p) && |p| >= 2
    requires i < |order| && order[i] == p[0]
    ensures exists j :: 0 <= j < i && order[j] == p[|p| - 1]
    decreases |p|
  {
    assert p[1] in Successors(adj, p[0]);
    assert p[1] in order[..i];
    var k :| 0 <= k < i && order[k] == p[1];
    if |p| > 2 {
      assert IsPath(adj, p[1..]);
      PathDescends(adj, order, p[1..], k);
    }
  }

  lemma {:induction false} FirstIndex<T>(xs: seq<T>, x: T) returns (i: nat)
    requires x in xs
    ensures i < |xs| && xs[i] == x && forall k :: 0 <= k < i ==> xs[k] != x
  {
    if xs[0] == x { i := 0; } else {
      assert xs == [xs[0]] + xs[1..];
      var k := FirstIndex(xs[1..], x);
      i := k + 1;
      assert forall j :: 0 < j < i ==> xs[j] == xs[1..][j - 1];
    }
  }

  /** If every node with an outgoing edge is finished, there is no cycle. */
  lemma AllFinishedNoCycle<T(!new)>(adj: Adjacency<T>, order: seq<T>)
    requires Finished(adj, order)
    requires forall n :: n in adj ==> n in order
    ensures !HasCycle(adj)
  {
    if HasCycle(adj) {
      var p: seq<T> :| IsCycle(adj, p);
      assert p[1] in Successors(adj, p[0]);
      var i := FirstIndex(order, p[0]);
      PathDescends(adj, order, p, i);
      assert false;
    }
  }

  /** Meeting a node of the current path again closes a cycle. */
  lemma ClosesCycle<T(!new)>(adj: Adjacency<T>, stack: seq<T>, node: T)
    requires IsPath(adj, stack + [node]) && node in stack
    ensures HasCycle(adj)
  {
    var i :| 0 <= i < |stack| && stack[i] == node;
    var p := (stack + [node])[i..];
    forall k | 0 <= k < |p| - 1 ensures p[k + 1] in Successors(adj, p[k]) {
      assert (stack + [node])[i + k + 1] in Successors(adj, (stack + [node])[i + k]);
    }
    assert IsCycle(adj, p);
  }

  class Search<T(!new, ==)> {
    const adj: Adjacency<T>
    var seen: set<T>
    var visiting: set<T>
    /** Seen nodes in the order their visits returned. */
    ghost var order: seq<T>
    /** Nodes whose visits have not returned, outermost first. */
    ghost var stack: seq<T>

    constructor (adj: Adjacency<T>)
      ensures this.adj == adj && stack == [] && Valid()
    {
      this.adj := adj;
      seen, visiting, order, stack := {}, {}, [], [];
    }

    ghost predicate Valid()
      reads this
    {
      Holds(seen, order) && Finished(adj, order) && Holds(visiting, stack)
    }

    ghost function Unvisited(): set<T>
      reads this
    {
      Nodes(adj) - visiting
    }

    method Visit(node: T) returns (throws: bool)
      requires Valid() && node in Nodes(adj)
      requires IsPath(adj, stack + [node])
      modifies this
      ensures throws ==> HasCycle(adj)
      ensures !throws ==> Valid() && stack == old(stack) && visiting == old(visiting)
      ensures !throws ==> node in seen && old(seen) <= seen
      decreases Unvisited()
    {
      if node in visiting {
        ClosesCycle(adj, stack, node);
        return true;
      }
      if node in seen {
        return false;
      }
      visiting := visiting + {node};
      stack := stack + [node];
      assert Unvisited() < old(Unvisited());
      var next := Successors(adj, node);
      var i := 0;
      while i < |next|
        invariant 0 <= i <= |next|
        invariant Valid() && stack == old(stack) + [node] && visiting == old(visiting) + {node}
        invariant old(seen) <= seen
        invariant forall k :: 0 <= k < i ==> next[k] in seen
      {
        SuccessorIsNode(adj, node, i);
        assert IsPath(adj, stack + [next[i]]);
        throws := Visit(next[i]);
        if throws {
          return true;
        }
        i := i + 1;
      }
      visiting := visiting - {node};
      assert stack[..|stack| - 1] == old(stack);
      stack := stack[..|stack| - 1];
      Finish(adj, order, node);
      seen := seen + {node};
      order := order + [node];
      return false;
    }
  }

  /** Every node that is a key or a target. */
  ghost function Nodes<T(!new)>(adj: Adjacency<T>): set<T> {
    adj.Keys + set n, i | n in adj && 0 <= i < |adj[n]| :: adj[n][i]
  }

  lemma SuccessorIsNode<T(!new)>(adj: Adjacency<T>, node: T, i: nat)
    requires i < |Successors(adj, node)|
    ensures Successors(adj, node)[i] in Nodes(adj)
  {
  }

  lemma Finish<T(!new)>(adj: Adjacency<T>, order: seq<T>, node: T)
    requires Finished(adj, order)
    requires forall t :: t in Successors(adj, node) ==> t in order
    ensures Finished(adj, order + [node])
  {
    var longer := order + [node];
    forall i, t | 0 <= i < |longer| && t in Successors(adj, longer[i]) ensures t in longer[..i] {
      if i < |order| {
        assert longer[..i] == order[..i];
      } else {
        assert longer[..i] == order;
      }
    }
  }

  /** `keys.forEach(visit)`: it always returns, and throws exactly when the graph has a cycle. */
  method ContainsCycle<T(!new, ==)>(adj: Adjacency<T>, keys: seq<T>) returns (throws: bool)
    requires forall n :: n in keys <==> n in adj
    ensures throws <==> HasCycle(adj)
  {
    var search := new Search(adj);
    var i := 0;
    while i < |keys|
      invariant 0 <= i <= |keys|
      invariant search.Valid() && search.stack == [] && search.adj == adj
      invariant forall k :: 0 <= k < i ==> keys[k] in search.seen
    {
      assert keys[i] in keys;
      assert IsPath(adj, search.stack + [keys[i]]);
      throws := search.Visit(keys[i]);
      if throws {
        return true;
      }
      i := i + 1;
    }
    assert forall n :: n in adj ==> n in search.order;
    AllFinishedNoCycle(adj, search.order);
    return false;
  }
}
