/** Pruning a subtree: the worklist that collects the descendants of a node. */
module TreePruning {
  import opened Wrappers
  import opened Trees
  import opened TreeShape

  /** `c` lies properly below `a` in the chain of parents. */
  predicate Descends(nodes: seq<Node>, c: nat, a: nat) {
    && 1 <= c <= |nodes|
    && match nodes[c - 1].parent
       case None => false
       case Some(p) => p == a || (p < c && Descends(nodes, p, a))
  }

  function DescendantSet(nodes: seq<Node>, a: nat): set<nat> {
    set c: nat | 1 <= c <= |nodes| && Descends(nodes, c, a)
  }

  predicate IsId(nodes: seq<Node>, c: nat) {
    1 <= c <= |nodes|
  }

  function AllIds(nodes: seq<Node>): set<nat> {
    set c: nat | c <= |nodes| && IsId(nodes, c)
  }

  ghost predicate ChildrenIn(es: seq<Expansion>, node: nat, ids: set<nat>) {
    forall k :: 0 <= k < |es| && es[k].target == node ==> forall c :: c in es[k].children ==> c in ids
  }

  /** The node an expansion made `c` a child of. */
  lemma {:induction false} OwnerExists(t: Tree, c: nat, k: nat) returns (j: nat)
    requires TreeOk(t) && 2 <= c <= |t.nodes| && k <= |t.expansions| && c < FirstChild(t.expansions, k)
    ensures j < k && c in t.expansions[j].children && t.expansions[j].target == t.nodes[c - 1].parent.value
  {
    hide NodesOk, BranchesOk, PrunedOk;
    j := k - 1;
    if c < FirstChild(t.expansions, j) {
      j := OwnerExists(t, c, j);
    } else {
      assert ExpansionOk(t.nodes, t.relationships, t.expansions, j);
      var e := t.expansions[j];
      assert e.children[c - FirstChild(t.expansions, j)] == c;
    }
  }

  /** Children of an expansion name its target as their parent, and are newer. */
  lemma {:induction false} ChildFacts(t: Tree, k: nat, c: nat)
    requires TreeOk(t) && k < |t.expansions| && c in t.expansions[k].children
    ensures 2 <= c <= |t.nodes| && t.nodes[c - 1].parent == Some(t.expansions[k].target)
      && 1 <= t.expansions[k].target < c
  {
    hide NodesOk, BranchesOk, PrunedOk;
    assert ExpansionOk(t.nodes, t.relationships, t.expansions, k);
    FirstChildGrows(t.expansions, 0, k);
    FirstChildGrows(t.expansions, k + 1, |t.expansions|);
    var i :| 0 <= i < |t.expansions[k].children| && t.expansions[k].children[i] == c;
  }

  /** Every node but the root is a child of exactly one expansion, whose target is its older parent. */
  lemma {:induction false} OneOwner(t: Tree, c: nat) returns (j: nat)
    requires TreeOk(t) && 2 <= c <= |t.nodes|
    ensures j < |t.expansions| && c in t.expansions[j].children
    ensures t.nodes[c - 1].parent == Some(t.expansions[j].target) && t.expansions[j].target < c
    ensures forall k :: 0 <= k < |t.expansions| && c in t.expansions[k].children ==> k == j
  {
    j := OwnerExists(t, c, |t.expansions|);
    ChildFacts(t, j, c);
    forall k | 0 <= k < |t.expansions| && c in t.expansions[k].children ensures k == j {
      SameBlock(t, j, k, c);
    }
  }

  lemma {:induction false} SameBlock(t: Tree, j: nat, k: nat, c: nat)
    requires TreeOk(t) && j < |t.expansions| && k < |t.expansions|
    requires c in t.expansions[j].children && c in t.expansions[k].children
    ensures j == k
  {
    hide NodesOk, BranchesOk, PrunedOk;
    InBlock(t, j, c);
    InBlock(t, k, c);
    if j < k { FirstChildGrows(t.expansions, j + 1, k); }
    if k < j { FirstChildGrows(t.expansions, k + 1, j); }
  }

  lemma {:induction false} InBlock(t: Tree, k: nat, c: nat)
    requires TreeOk(t) && k < |t.expansions| && c in t.expansions[k].children
    ensures FirstChild(t.expansions, k) <= c < FirstChild(t.expansions, k + 1)
  {
    hide NodesOk, BranchesOk, PrunedOk;
    assert ExpansionOk(t.nodes, t.relationships, t.expansions, k);
  }

  /** A set that holds the children of `a` and of its own members holds all descendants of `a`. */
  lemma {:induction false} ClosedHoldsDescendants(t: Tree, a: nat, ids: set<nat>, c: nat)
    requires TreeOk(t) && Descends(t.nodes, c, a)
    requires ChildrenIn(t.expansions, a, ids) && forall x :: x in ids ==> ChildrenIn(t.expansions, x, ids)
    ensures c in ids
  {
    OneParentless(t);
    var j := OneOwner(t, c);
    var p := t.nodes[c - 1].parent.value;
    if p != a { ClosedHoldsDescendants(t, a, ids, p); }
    assert ChildrenIn(t.expansions, p, ids);
  }

  /** Only the first node has no parent, and every parent is older. */
  lemma {:induction false} OneParentless(t: Tree)
    requires TreeOk(t)
    ensures |t.nodes| >= 1 && t.nodes[0].parent.None?
    ensures forall i :: 0 < i < |t.nodes| ==> t.nodes[i].parent.Some? && 1 <= t.nodes[i].parent.value <= i
  {
    hide ExpansionsOk, BranchesOk, PrunedOk;
  }

  /** The worklist ends with exactly the proper descendants. */
  method Descendants(t: Tree, node: nat) returns (descendants: set<nat>)
    requires TreeOk(t)
    ensures descendants == DescendantSet(t.nodes, node)
  {
    hide TreeOk;
    descendants := {};
    var work: seq<nat> := [node];
    while work != []
      invariant descendants <= DescendantSet(t.nodes, node)
      invariant forall x :: x in work ==> x == node || x in descendants
      invariant forall x :: (x == node || x in descendants) && x !in work ==> ChildrenIn(t.expansions, x, descendants)
      decreases AllIds(t.nodes) - descendants, |work|
    {
      ghost var before, waiting := descendants, work;
      var current := work[|work| - 1];
      work := work[..|work| - 1];
      assert waiting == work + [current];
      descendants, work := AddChildren(t, node, current, descendants, work);
      if descendants == before {
        assert |work| < |waiting|;
      } else {
        var x :| x in descendants && x !in before;
        assert IsId(t.nodes, x);
        assert x in AllIds(t.nodes) - before;
      }
    }
    forall c | c in DescendantSet(t.nodes, node) ensures c in descendants {
      ClosedHoldsDescendants(t, node, descendants, c);
    }
  }

  /** The children of `current` over all of its expansions, the new ones also put to work. */
  method AddChildren(t: Tree, node: nat, current: nat, descendants: set<nat>, work: seq<nat>)
    returns (descendants': set<nat>, work': seq<nat>)
    requires TreeOk(t) && descendants <= DescendantSet(t.nodes, node)
    requires current == node || current in descendants
    requires forall x :: x in work ==> x == node || x in descendants
    requires forall x :: (x == node || x in descendants) && x !in work && x != current ==>
      ChildrenIn(t.expansions, x, descendants)
    ensures descendants <= descendants' <= DescendantSet(t.nodes, node)
    ensures forall x :: x in work' ==> x == node || x in descendants'
    ensures forall x :: (x == node || x in descendants') && x !in work' ==> ChildrenIn(t.expansions, x, descendants')
    ensures descendants' == descendants ==> work' == work
  {
    hide TreeOk;
    descendants', work' := descendants, work;
    for k := 0 to |t.expansions|
      invariant descendants <= descendants' <= DescendantSet(t.nodes, node)
      invariant forall x :: x in work ==> x in work'
      invariant forall x :: x in work' ==> x == node || x in descendants'
      invariant forall x :: x in descendants' && x !in descendants ==> x in work'
      invariant forall j :: 0 <= j < k && t.expansions[j].target == current ==>
        forall c :: c in t.expansions[j].children ==> c in descendants'
      invariant descendants' == descendants ==> work' == work
    {
      if t.expansions[k].target == current {
        var children := t.expansions[k].children;
        for i := 0 to |children|
          invariant descendants <= descendants' <= DescendantSet(t.nodes, node)
          invariant forall x :: x in work ==> x in work'
          invariant forall x :: x in work' ==> x == node || x in descendants'
          invariant forall x :: x in descendants' && x !in descendants ==> x in work'
          invariant forall j :: 0 <= j < k && t.expansions[j].target == current ==>
            forall c :: c in t.expansions[j].children ==> c in descendants'
          invariant forall j :: 0 <= j < i ==> children[j] in descendants'
          invariant descendants' == descendants ==> work' == work
        {
          var child := children[i];
          ChildDescends(t, k, child, node);
          if child !in descendants' && child != node {
            descendants' := descendants' + {child};
            work' := work' + [child];
          }
        }
      }
    }
  }

  lemma {:induction false} ChildDescends(t: Tree, k: nat, c: nat, node: nat)
    requires TreeOk(t) && k < |t.expansions| && c in t.expansions[k].children
    ensures t.expansions[k].target == node || Descends(t.nodes, t.expansions[k].target, node) ==>
      c in DescendantSet(t.nodes, node) && c != node
  {
    ChildFacts(t, k, c);
    if Descends(t.nodes, t.expansions[k].target, node) { DescendsIsBelow(t, t.expansions[k].target, node); }
  }

  lemma {:induction false} DescendsIsBelow(t: Tree, c: nat, a: nat)
    requires TreeOk(t) && Descends(t.nodes, c, a)
    ensures a < c
  {
    OneParentless(t);
    var p := t.nodes[c - 1].parent.value;
    if p != a { DescendsIsBelow(t, p, a); }
  }

  // --- prune -----------------------------------------------------------------------------------

  function Prune(t: Tree, node: nat): Result<Tree, TreeError> {
    if FindNode(t.nodes, node).None? then Err(UnknownNode)
    else
      var pruned := t.pruned + {node} + DescendantSet(t.nodes, node);
      Ok(RegisterGap(t.(pruned := pruned, nodes := SetStatus(t.nodes, pruned, NodeStatus.Pruned)), UnresolvedNode, node,
        false))
  }

  method PruneSubtree(t: Tree, node: nat) returns (result: Result<Tree, TreeError>)
    requires TreeOk(t)
    ensures result == Prune(t, node)
  {
    if FindNode(t.nodes, node).None? { return Err(UnknownNode); }
    var descendants := Descendants(t, node);
    var pruned := t.pruned + {node} + descendants;
    result := Ok(RegisterGap(t.(pruned := pruned, nodes := SetStatus(t.nodes, pruned, NodeStatus.Pruned)),
      UnresolvedNode, node, false));
  }

  /** Pruning keeps the shape, and the pruned set stays closed downwards. */
  lemma {:induction false} PruneKeeps(t: Tree, node: nat)
    requires TreeOk(t)
    ensures Prune(t, node).Ok? <==> 1 <= node <= |t.nodes|
    ensures Prune(t, node).Ok? ==> TreeOk(Prune(t, node).value)
  {
    NodesNumbered(t);
    FindNodeExactly(t.nodes, 0, node);
    if 1 <= node <= |t.nodes| {
      var pruned := t.pruned + {node} + DescendantSet(t.nodes, node);
      var u := t.(pruned := pruned, nodes := SetStatus(t.nodes, pruned, NodeStatus.Pruned));
      forall k, c | 0 <= k < |t.expansions| && t.expansions[k].target in pruned && c in t.expansions[k].children
        ensures c in pruned
      {
        ChildDescends(t, k, c, node);
        PrunedClosed(t, k, c);
      }
      assert PrunedOk(u) by { PrunedInRange(t); }
      hide PrunedOk, FindNode, DescendantSet;
      StatusOk(t, pruned, NodeStatus.Pruned, pruned, false);
      GapOk(u, UnresolvedNode, node, false);
    }
  }

  lemma {:induction false} NodesNumbered(t: Tree)
    requires TreeOk(t)
    ensures forall i :: 0 <= i < |t.nodes| ==> t.nodes[i].id == i + 1
  {
  }

  lemma {:induction false} PrunedClosed(t: Tree, k: nat, c: nat)
    requires TreeOk(t) && k < |t.expansions| && c in t.expansions[k].children
    ensures t.expansions[k].target in t.pruned ==> c in t.pruned
  {
    hide NodesOk, ExpansionsOk, BranchesOk;
  }

  lemma {:induction false} PrunedInRange(t: Tree)
    requires TreeOk(t)
    ensures forall id :: id in t.pruned ==> 1 <= id <= |t.nodes|
  {
    hide NodesOk, ExpansionsOk, BranchesOk;
  }
}
