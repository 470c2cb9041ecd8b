/** Cycle detection over the condition graph: a recursive search with `visiting` and `visited` sets. */
module ConditionGraph {
  datatype Edge = Edge(source: string, target: string)

  type Adjacency = map<string, seq<string>>

  /** Every listed neighbour is itself a known node. */
  ghost predicate Closed(adjacency: Adjacency) {
    forall node, child :: node in adjacency && child in adjacency[node] ==> child in adjacency
  }

  ghost predicate Step(adjacency: Adjacency, source: string, target: string) {
    source in adjacency && target in adjacency[source]
  }

  ghost predicate IsPath(adjacency: Adjacency, path: seq<string>) {
    forall i :: 0 <= i < |path| - 1 ==> Step(adjacency, path[i], path[i + 1])
  }

  ghost predicate IsCycle(adjacency: Adjacency, path: seq<string>) {
    |path| >= 2 && path[0] == path[|path| - 1] && IsPath(adjacency, path)
  }

  ghost predicate Cyclic(adjacency: Adjacency) {
    exists path :: IsCycle(adjacency, path)
  }

  ghost predicate Joined(nodeIds: seq<string>, edges: seq<Edge>, source: string, target: string) {
    source in nodeIds && target in nodeIds && Edge(source, target) in edges
  }

  /** An edge enters the adjacency when both of its ends are known; the other edges are reported elsewhere. */
  method BuildAdjacency(nodeIds: seq<string>, edges: seq<Edge>) returns (adjacency: Adjacency)
    ensures adjacency.Keys == set id | id in nodeIds
    ensures Closed(adjacency)
    ensures forall a, b :: Step(adjacency, a, b) <==> Joined(nodeIds, edges, a, b)
  {
    adjacency := map id | id in nodeIds :: [];
    for i := 0 to |edges|
      invariant adjacency.Keys == set id | id in nodeIds
      invariant Closed(adjacency)
      invariant forall a, b :: Step(adjacency, a, b) <==> a in nodeIds && b in nodeIds && Edge(a, b) in edges[..i]
    {
      var edge := edges[i];
      assert edges[..i + 1] == edges[..i] + [edge];
      if edge.source in adjacency && edge.target in adjacency {
        ghost var before := adjacency;
        adjacency := adjacency[edge.source := adjacency[edge.source] + [edge.target]];
        forall a, b ensures Step(adjacency, a, b) <==> Step(before, a, b) || (a == edge.source && b == edge.target) {}
      }
    }
    assert edges[..|edges|] == edges;
  }

  // --- the finishing order -------------------------------------------------------------

  ghost predicate Distinct(s: seq<string>) {
    forall i, j :: 0 <= i < j < |s| ==> s[i] != s[j]
  }

  /** Every neighbour of a finished node was finished before it. */
  ghost predicate Topological(adjacency: Adjacency, finished: seq<string>) {
    && Distinct(finished)
    && forall i, child :: 0 <= i < |finished| && Step(adjacency, finished[i], child) ==> child in finished[..i]
  }

  lemma {:induction false} PathsDescend(adjacency: Adjacency, finished: seq<string>, path: seq<string>, i: nat)
    requires Topological(adjacency, finished) && IsPath(adjacency, path)
    requires i < |finished| && |path| >= 2 && path[0] == finished[i]
    ensures path[|path| - 1] in finished[..i]
  {
    assert Step(adjacency, path[0], path[1]);
    var j :| 0 <= j < i && finished[j] == path[1];
    if |path| > 2 {
      forall k | 0 <= k < |path[1..]| - 1 ensures Step(adjacency, path[1..][k], path[1..][k + 1]) {
        assert Step(adjacency, path[k + 1], path[k + 2]);
      }
      PathsDescend(adjacency, finished, path[1..], j);
    }
  }

  lemma {:induction false} FinishedMeansAcyclic(adjacency: Adjacency, finished: seq<string>)
    requires Topological(adjacency, finished) && forall id :: id in adjacency ==> id in finished
    ensures !Cyclic(adjacency)
  {
    forall path ensures !IsCycle(adjacency, path) {
      if IsCycle(adjacency, path) {
        assert Step(adjacency, path[0], path[1]);
        var i :| 0 <= i < |finished| && finished[i] == path[0];
        PathsDescend(adjacency, finished, path, i);
      }
    }
  }

  lemma {:induction false} StackCloses(adjacency: Adjacency, stack: seq<string>, node: string)
    requires IsPath(adjacency, stack) && node in stack && Step(adjacency, stack[|stack| - 1], node)
    ensures Cyclic(adjacency)
  {
    var i :| 0 <= i < |stack| && stack[i] == node;
    var path := stack[i..] + [node];
    forall k | 0 <= k < |path| - 1 ensures Step(adjacency, path[k], path[k + 1]) {
      if k < |path| - 2 { assert Step(adjacency, stack[i + k], stack[i + k + 1]); }
    }
    assert IsCycle(adjacency, path);
  }

  lemma {:induction false} FinishOne(adjacency: Adjacency, finished: seq<string>, node: string)
    requires Topological(adjacency, finished) && node !in finished
    requires forall child :: Step(adjacency, node, child) ==> child in finished
    ensures Topological(adjacency, finished + [node])
  {
    var next := finished + [node];
    forall i, child | 0 <= i < |next| && Step(adjacency, next[i], child) ensures child in next[..i] {
      if i < |finished| {
        assert next[..i] == finished[..i];
      } else {
        assert next[..i] == finished;
      }
    }
  }

  // --- the search ----------------------------------------------------------------------

  /** The sets against the path being walked and the order in which nodes were finished. */
  ghost predicate Consistent(adjacency: Adjacency, visiting: set<string>, visited: set<string>,
                             stack: seq<string>, finished: seq<string>) {
    && Closed(adjacency)
    && (forall id :: id in visiting <==> id in stack)
    && (forall id :: id in visited <==> id in finished)
    && (forall id :: id in stack || id in finished ==> id in adjacency)
    && (forall id :: id in stack ==> id !in finished)
    && Distinct(stack)
    && IsPath(adjacency, stack)
    && Topological(adjacency, finished)
  }

  lemma {:induction false} Enter(adjacency: Adjacency, visiting: set<string>, visited: set<string>,
                                 stack: seq<string>, finished: seq<string>, node: string)
    requires Consistent(adjacency, visiting, visited, stack, finished)
    requires node in adjacency && node !in visiting && node !in visited
    requires stack == [] || Step(adjacency, stack[|stack| - 1], node)
    ensures Consistent(adjacency, visiting + {node}, visited, stack + [node], finished)
  {
    hide Topological, Step, Closed;
  }

  lemma {:induction false} Leave(adjacency: Adjacency, visiting: set<string>, visited: set<string>,
                                 stack: seq<string>, finished: seq<string>, node: string)
    requires Consistent(adjacency, visiting, visited, stack + [node], finished)
    requires forall child :: Step(adjacency, node, child) ==> child in finished
    ensures Consistent(adjacency, visiting - {node}, visited + {node}, stack, finished + [node])
  {
    var full := stack + [node];
    assert full[|stack|] == node;
    forall i | 0 <= i < |stack| ensures full[i] == stack[i] && stack[i] != node { assert full[i] != full[|stack|]; }
    FinishOne(adjacency, finished, node);
    hide Topological;
    forall i | 0 <= i < |stack| - 1 ensures Step(adjacency, stack[i], stack[i + 1]) {
      assert Step(adjacency, full[i], full[i + 1]);
    }
    hide Step, Closed;
  }

  class CycleSearch {
    const adjacency: Adjacency
    var visiting: set<string>
    var visited: set<string>
    ghost var stack: seq<string>
    ghost var finished: seq<string>

    ghost predicate Valid()
      reads this
    {
      Consistent(adjacency, visiting, visited, stack, finished)
    }

    constructor (adjacency: Adjacency)
      requires Closed(adjacency)
      ensures Valid() && this.adjacency == adjacency && stack == [] && visited == {}
    {
      this.adjacency := adjacency;
      visiting, visited := {}, {};
      stack, finished := [], [];
    }

    /** True only if the graph has a cycle; otherwise the node and all it reaches are finished and
        the path above it is as it was. */
    method Visit(node: string) returns (found: bool)
      requires Valid() && node in adjacency
      requires stack == [] || Step(adjacency, stack[|stack| - 1], node)
      modifies this
      ensures found ==> Cyclic(adjacency)
      ensures !found ==> Valid() && visiting == old(visiting) && stack == old(stack)
      ensures !found ==> old(finished) <= finished && old(visited) <= visited && node in visited
      decreases adjacency.Keys - visiting - visited
    {
      hide Consistent;
      VisitingFacts(adjacency, visiting, visited, stack, finished);
      if node in visiting {
        StackCloses(adjacency, stack, node);
        return true;
      }
      if node in visited { return false; }
      Enter(adjacency, visiting, visited, stack, finished, node);
      visiting := visiting + {node};
      stack := stack + [node];
      var i := 0;
      while i < |adjacency[node]|
        invariant i <= |adjacency[node]|
        invariant Valid() && visiting == old(visiting) + {node} && stack == old(stack) + [node]
        invariant old(finished) <= finished && old(visited) <= visited
        invariant forall k :: 0 <= k < i ==> adjacency[node][k] in visited
      {
        var child := adjacency[node][i];
        VisitingFacts(adjacency, visiting, visited, stack, finished);
        assert Step(adjacency, node, child);
        assert node in adjacency.Keys - old(visiting) - old(visited);
        assert adjacency.Keys - visiting - visited < adjacency.Keys - old(visiting) - old(visited);
        found := Visit(child);
        if found { return; }
        i := i + 1;
      }
      VisitingFacts(adjacency, visiting, visited, stack, finished);
      Leave(adjacency, visiting, visited, old(stack), finished, node);
      assert visiting - {node} == old(visiting);
      visiting := visiting - {node};
      stack := stack[..|stack| - 1];
      visited := visited + {node};
      finished := finished + [node];
      found := false;
    }
  }

  lemma {:induction false} VisitingFacts(adjacency: Adjacency, visiting: set<string>, visited: set<string>,
                                         stack: seq<string>, finished: seq<string>)
    requires Consistent(adjacency, visiting, visited, stack, finished)
    ensures Closed(adjacency) && IsPath(adjacency, stack)
    ensures forall id :: id in visiting <==> id in stack
    ensures forall id :: id in visited <==> id in finished
  {
    hide Topological, Distinct, Step;
  }

  /** A closed walk over declared edges whose ends are all known nodes. */
  ghost predicate DeclaredCycle(nodeIds: seq<string>, edges: seq<Edge>, path: seq<string>) {
    && |path| >= 2 && path[0] == path[|path| - 1]
    && forall i :: 0 <= i < |path| - 1 ==> Joined(nodeIds, edges, path[i], path[i + 1])
  }

  /** The search reports a cycle exactly when the graph of known nodes has one. */
  method HasCycle(nodeIds: seq<string>, edges: seq<Edge>) returns (found: bool)
    ensures found <==> exists path :: DeclaredCycle(nodeIds, edges, path)
  {
    var adjacency := BuildAdjacency(nodeIds, edges);
    found := SearchAll(nodeIds, adjacency);
    forall path ensures IsCycle(adjacency, path) <==> DeclaredCycle(nodeIds, edges, path) {
      forall i | 0 <= i < |path| - 1
        ensures Step(adjacency, path[i], path[i + 1]) <==> Joined(nodeIds, edges, path[i], path[i + 1]) {}
    }
  }

  method SearchAll(nodeIds: seq<string>, adjacency: Adjacency) returns (found: bool)
    requires Closed(adjacency) && adjacency.Keys == set id | id in nodeIds
    ensures found <==> Cyclic(adjacency)
  {
    var search := new CycleSearch(adjacency);
    for n := 0 to |nodeIds|
      invariant search.Valid() && search.adjacency == adjacency && search.stack == []
      invariant forall k :: 0 <= k < n ==> nodeIds[k] in search.finished
    {
      if nodeIds[n] !in search.visited {
        found := search.Visit(nodeIds[n]);
        if found { return; }
      }
    }
    FinishedMeansAcyclic(adjacency, search.finished);
    found := false;
  }
}
