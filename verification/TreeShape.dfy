/** What every mutation of the decomposition tree keeps. */
module TreeShape {
  import opened Wrappers
  import opened Expressions
  import opened Units
  import opened Trees
  import Signatures

  // --- the shape ------------------------------------------------------------------------------

  /** Where the children of the `k`-th expansion start. */
  function FirstChild(es: seq<Expansion>, k: nat): nat
    requires k <= |es|
  {
    if k == 0 then 2 else FirstChild(es, k - 1) + |es[k - 1].children|
  }

  ghost predicate CountersOk(t: Tree) {
    && t.nodeSequence == |t.nodes| && t.relationshipSequence == |t.relationships|
    && t.expansionSequence == |t.expansions| && t.branchSequence == |t.branches| && t.gapSequence == |t.gaps|
  }

  /** Identifiers number the nodes; only the first has no parent, and every parent is older. */
  ghost predicate NodesOk(nodes: seq<Node>) {
    && |nodes| >= 1
    && (forall i :: 0 <= i < |nodes| ==> nodes[i].id == i + 1)
    && nodes[0].parent.None?
    && (forall i :: 0 < i < |nodes| ==> nodes[i].parent.Some? && 1 <= nodes[i].parent.value <= i)
  }

  /** The `k`-th expansion: its own relationship and the next block of nodes as children of its target. */
  ghost predicate ExpansionOk(nodes: seq<Node>, relationships: seq<Relationship>, es: seq<Expansion>, k: nat)
    requires k < |es|
  {
    var e := es[k];
    && e.id == k + 1 && e.relationship == k + 1 && k < |relationships|
    && relationships[k].id == k + 1 && relationships[k].parentNode == e.target
    && relationships[k].children == e.children && |relationships[k].childUnits| == |e.children|
    && |e.children| >= 1 && e.children == Range(FirstChild(es, k), |e.children|)
    && 1 <= e.target < FirstChild(es, k)
    && FirstChild(es, k + 1) <= |nodes| + 1
    && (forall i :: 0 <= i < |e.children| ==> nodes[e.children[i] - 1].parent == Some(e.target))
    && (e.redundant ==> e.alternativeOf.Some?)
    && (e.alternativeOf.Some? ==> e.alternativeOf.value <= k && Anchors(es, e.alternativeOf.value, e.target))
  }

  /** The expansion `id` is one of the node `target`. */
  predicate Anchors(es: seq<Expansion>, id: nat, target: nat) {
    1 <= id <= |es| && es[id - 1].target == target
  }

  ghost predicate ExpansionsOk(nodes: seq<Node>, relationships: seq<Relationship>, es: seq<Expansion>) {
    && |relationships| == |es|
    && FirstChild(es, |es|) == |nodes| + 1
    && forall k :: 0 <= k < |es| ==> ExpansionOk(nodes, relationships, es, k)
  }

  ghost predicate NamesExpansions(branch: Branch, es: seq<Expansion>) {
    forall i :: 0 <= i < |branch.expansions| ==> 1 <= branch.expansions[i] <= |es|
  }

  function TargetOf(es: seq<Expansion>, id: nat): nat {
    if 1 <= id <= |es| then es[id - 1].target else 0
  }

  predicate Primary(es: seq<Expansion>, id: nat) {
    1 <= id <= |es| && es[id - 1].alternativeOf.None?
  }

  /** The lineage holds an expansion of the node. */
  ghost predicate Covers(lineage: seq<nat>, es: seq<Expansion>, node: nat) {
    exists i :: 0 <= i < |lineage| && Primary(es, lineage[i]) && TargetOf(es, lineage[i]) == node
  }

  /** The current branch: no alternatives, one expansion per node, and some expansion wherever there is any. */
  ghost predicate CurrentOk(lineage: seq<nat>, es: seq<Expansion>) {
    && (forall i :: 0 <= i < |lineage| ==> Primary(es, lineage[i]))
    && (forall i, j :: 0 <= i < j < |lineage| ==> TargetOf(es, lineage[i]) != TargetOf(es, lineage[j]))
    && (forall k :: 0 <= k < |es| ==> Covers(lineage, es, es[k].target))
  }

  ghost predicate IsTarget(es: seq<Expansion>, node: nat) {
    exists k :: 0 <= k < |es| && es[k].target == node
  }

  predicate AlternativeAt(es: seq<Expansion>, id: nat) {
    1 <= id <= |es| && es[id - 1].alternativeOf.Some?
  }

  /** A forked branch: what the current branch held when it forked, and then the alternative it forked at. */
  predicate ForkOk(lineage: seq<nat>, es: seq<Expansion>, branch: Branch) {
    && branch.expansions != []
    && var last := branch.expansions[|branch.expansions| - 1];
    && branch.divergentAt == Some(last) && AlternativeAt(es, last)
    && branch.expansions[..|branch.expansions| - 1] <= lineage
  }

  /** Every alternative has the branch that forked at it. */
  ghost predicate Forked(branches: seq<Branch>, id: nat) {
    exists i :: 0 < i < |branches| && branches[i].divergentAt == Some(id)
  }

  ghost predicate ForksOk(branches: seq<Branch>, es: seq<Expansion>)
    requires |branches| >= 1
  {
    && (forall i :: 0 < i < |branches| ==> ForkOk(branches[0].expansions, es, branches[i]))
    && (forall id :: AlternativeAt(es, id) ==> Forked(branches, id))
  }

  ghost predicate BranchesOk(t: Tree) {
    && |t.branches| >= 1
    && t.currentBranch == Some(1)
    && (forall i :: 0 <= i < |t.branches| ==> t.branches[i].id == i + 1)
    && (forall i :: 0 <= i < |t.branches| ==> NamesExpansions(t.branches[i], t.expansions))
    && CurrentOk(t.branches[0].expansions, t.expansions)
    && ForksOk(t.branches, t.expansions)
  }

  /** A pruned node cannot be expanded again, and everything below it is pruned too. */
  ghost predicate PrunedOk(t: Tree) {
    && (forall id :: id in t.pruned ==> 1 <= id <= |t.nodes|)
    && (forall i :: 0 <= i < |t.nodes| && t.nodes[i].id in t.pruned ==>
       t.nodes[i].status.Pruned? || t.nodes[i].status.AtomicLeaf?)
    && (forall k, c ::
          0 <= k < |t.expansions| && t.expansions[k].target in t.pruned && c in t.expansions[k].children ==>
            c in t.pruned)
  }

  ghost predicate TreeOk(t: Tree) {
    && CountersOk(t)
    && NodesOk(t.nodes)
    && ExpansionsOk(t.nodes, t.relationships, t.expansions)
    && BranchesOk(t)
    && PrunedOk(t)
  }

  lemma {:induction false} CreateOk(printer: Signatures.Printer, rootUnit: Option<UnitText>, incomplete: bool)
    ensures TreeOk(Create(printer, rootUnit, incomplete))
  {
  }

  lemma {:induction false} FindNodeExactly(nodes: seq<Node>, start: nat, id: nat)
    requires forall i :: 0 <= i < |nodes| ==> nodes[i].id == start + i + 1
    ensures FindNode(nodes, id) == if start < id <= start + |nodes| then Some(nodes[id - 1 - start]) else None
    decreases |nodes|
  {
    if nodes != [] { FindNodeExactly(nodes[1..], start + 1, id); }
  }

  lemma {:induction false} FindRelationshipExactly(rs: seq<Relationship>, start: nat, id: nat)
    requires forall i :: 0 <= i < |rs| ==> rs[i].id == start + i + 1
    ensures FindRelationship(rs, id) == if start < id <= start + |rs| then Some(rs[id - 1 - start]) else None
    decreases |rs|
  {
    if rs != [] { FindRelationshipExactly(rs[1..], start + 1, id); }
  }

  lemma {:induction false} CurrentIsFirst(t: Tree)
    requires |t.branches| >= 1 && t.currentBranch == Some(1) && t.branches[0].id == 1
    ensures CurrentBranch(t) == t.branches[0]
  {
  }

  lemma {:induction false} MaterialiseNodes(t: Tree, units: seq<UnitText>, parent: nat)
    ensures var m := Materialise(t, units, parent);
      && m == t.(nodes := m.nodes, nodeSequence := t.nodeSequence + |units|)
      && |m.nodes| == |t.nodes| + |units| && m.nodes[..|t.nodes|] == t.nodes
      && forall i :: 0 <= i < |units| ==>
         m.nodes[|t.nodes| + i] == Node(t.nodeSequence + i + 1, Open, ChildRole, Some(parent), Some(units[i]))
    decreases |units|
  {
    if units != [] {
      var u := RegisterNode(t, units[0], parent);
      MaterialiseNodes(u, units[1..], parent);
      var m := Materialise(u, units[1..], parent);
      assert m.nodes[..|t.nodes|] == m.nodes[..|u.nodes|][..|t.nodes|];
      forall i | 0 <= i < |units|
        ensures m.nodes[|t.nodes| + i] == Node(t.nodeSequence + i + 1, Open, ChildRole, Some(parent), Some(units[i]))
      {
        if i == 0 {
          assert m.nodes[|t.nodes|] == m.nodes[..|u.nodes|][|t.nodes|];
        } else {
          assert m.nodes[|u.nodes| + (i - 1)]
            == Node(u.nodeSequence + (i - 1) + 1, Open, ChildRole, Some(parent), Some(units[1..][i - 1]));
        }
      }
    }
  }

  lemma {:induction false} FirstChildPrefix(es: seq<Expansion>, more: seq<Expansion>, k: nat)
    requires k <= |es| <= |more| && more[..|es|] == es
    ensures FirstChild(more, k) == FirstChild(es, k)
  {
    if k > 0 {
      FirstChildPrefix(es, more, k - 1);
      assert more[k - 1] == more[..|es|][k - 1];
    }
  }

  lemma {:induction false} FirstChildGrows(es: seq<Expansion>, j: nat, k: nat)
    requires j <= k <= |es|
    ensures FirstChild(es, j) <= FirstChild(es, k)
  {
    if j < k { FirstChildGrows(es, j, k - 1); }
  }

  // --- growing keeps the shape ----------------------------------------------------------------

  lemma {:induction false} RestatusOk(nodes: seq<Node>, target: nat, children: seq<nat>)
    requires NodesOk(nodes)
    ensures NodesOk(Restatus(nodes, target, children))
  {
  }

  /** The nodes before and after the children of one expansion are made. */
  ghost predicate NewNodes(nodes: seq<Node>, more: seq<Node>, parent: nat, units: seq<UnitText>) {
    && |more| == |nodes| + |units|
    && (forall i :: 0 <= i < |nodes| ==> more[i].parent == nodes[i].parent && more[i].unit == nodes[i].unit)
    && (forall i :: |nodes| <= i < |more| ==>
      more[i].parent == Some(parent) && more[i].unit == Some(units[i - |nodes|]) && more[i].status == Open)
  }

  lemma {:induction false} ExtendedOk(nodes: seq<Node>, more: seq<Node>, parent: nat, units: seq<UnitText>)
    requires NodesOk(nodes) && 1 <= parent <= |nodes| && |more| == |nodes| + |units| && more[..|nodes|] == nodes
    requires forall i :: 0 <= i < |units| ==>
      more[|nodes| + i] == Node(|nodes| + i + 1, Open, ChildRole, Some(parent), Some(units[i]))
    ensures NodesOk(more) && NewNodes(nodes, more, parent, units)
    ensures forall i :: 0 <= i < |nodes| ==> more[i] == nodes[i]
  {
    var n := |nodes|;
    forall i | 0 <= i < n ensures more[i] == nodes[i] {
      assert more[i] == more[..n][i];
    }
    forall i | n <= i < |more| ensures more[i] == Node(i + 1, Open, ChildRole, Some(parent), Some(units[i - n])) {
      assert more[n + (i - n)] == Node(n + (i - n) + 1, Open, ChildRole, Some(parent), Some(units[i - n]));
    }
  }

  lemma {:induction false} MaterialisedOk(t: Tree, units: seq<UnitText>, parent: nat)
    requires NodesOk(t.nodes) && t.nodeSequence == |t.nodes| && 1 <= parent <= |t.nodes|
    ensures var m := Materialise(t, units, parent);
      && NodesOk(m.nodes) && NewNodes(t.nodes, m.nodes, parent, units) && m.nodeSequence == |m.nodes|
      && forall i :: 0 <= i < |t.nodes| ==> m.nodes[i] == t.nodes[i]
  {
    hide NodesOk, NewNodes, Materialise;
    MaterialiseNodes(t, units, parent);
    ExtendedOk(t.nodes, Materialise(t, units, parent).nodes, parent, units);
  }

  lemma {:induction false} GrownNodes(t: Tree, r: Request, alternativeOf: Option<nat>, redundant: bool)
    requires t.branches != [] && CountersOk(t) && NodesOk(t.nodes) && 1 <= r.target <= |t.nodes|
    ensures var u := Grow(t, r, alternativeOf, redundant);
      && NodesOk(u.nodes) && |u.nodes| == u.nodeSequence && NewNodes(t.nodes, u.nodes, r.target, r.childUnits)
      && (forall i :: 0 <= i < |t.nodes| ==>
         u.nodes[i].status == if i + 1 == r.target then Expanded else t.nodes[i].status)
  {
    var m := Materialise(t, r.childUnits, r.target);
    var children := Range(t.nodeSequence + 1, |r.childUnits|);
    var u := Grow(t, r, alternativeOf, redundant);
    assert u.nodes == Restatus(m.nodes, r.target, children) && u.nodeSequence == m.nodeSequence;
    MaterialisedOk(t, r.childUnits, r.target);
    RestatusOk(m.nodes, r.target, children);
    hide Materialise, Grow;
    assert forall i :: 0 <= i < |m.nodes| ==> m.nodes[i].id == i + 1;
  }

  lemma {:induction false} ExpansionStays(nodes: seq<Node>, rs: seq<Relationship>, es: seq<Expansion>,
                                          nodes': seq<Node>, rs': seq<Relationship>, es': seq<Expansion>, k: nat)
    requires k < |es| <= |es'| && es'[..|es|] == es && ExpansionOk(nodes, rs, es, k)
    requires |rs| <= |rs'| && rs'[..|rs|] == rs
    requires |nodes| <= |nodes'| && forall i :: 0 <= i < |nodes| ==> nodes'[i].parent == nodes[i].parent
    ensures ExpansionOk(nodes', rs', es', k)
  {
    FirstChildPrefix(es, es', k);
    FirstChildPrefix(es, es', k + 1);
    assert es'[k] == es'[..|es|][k] && rs'[k] == rs'[..|rs|][k];
  }

  lemma {:induction false} GrownExpansions(t: Tree, r: Request, alternativeOf: Option<nat>, redundant: bool)
    requires t.branches != [] && CountersOk(t) && NodesOk(t.nodes) && 1 <= r.target <= |t.nodes|
    requires ExpansionsOk(t.nodes, t.relationships, t.expansions)
    requires r.childUnits != [] && (redundant ==> alternativeOf.Some?)
    requires alternativeOf.Some? ==> Anchors(t.expansions, alternativeOf.value, r.target)
    ensures var u := Grow(t, r, alternativeOf, redundant);
      ExpansionsOk(u.nodes, u.relationships, u.expansions)
  {
    var u := Grow(t, r, alternativeOf, redundant);
    var n := |t.expansions|;
    GrownNodes(t, r, alternativeOf, redundant);
    FirstChildPrefix(t.expansions, u.expansions, n);
    hide NodesOk, Restatus, Materialise, AttachToBranch;
    forall k | 0 <= k < |u.expansions| ensures ExpansionOk(u.nodes, u.relationships, u.expansions, k) {
      if k < n {
        ExpansionStays(t.nodes, t.relationships, t.expansions, u.nodes, u.relationships, u.expansions, k);
      } else {
        assert FirstChild(u.expansions, n + 1) == FirstChild(u.expansions, n) + |r.childUnits|;
      }
    }
  }

  lemma {:induction false} CoversStays(lineage: seq<nat>, line: seq<nat>, es: seq<Expansion>, e: Expansion, node: nat)
    requires |lineage| <= |line| && line[..|lineage|] == lineage && Covers(lineage, es, node)
    ensures Covers(line, es + [e], node)
  {
    var i :| 0 <= i < |lineage| && Primary(es, lineage[i]) && TargetOf(es, lineage[i]) == node;
    assert line[i] == line[..|lineage|][i];
    assert Primary(es + [e], line[i]) && TargetOf(es + [e], line[i]) == node;
  }

  lemma {:induction false} LineageStays(lineage: seq<nat>, es: seq<Expansion>, e: Expansion, i: nat)
    requires i < |lineage| && Primary(es, lineage[i])
    ensures Primary(es + [e], lineage[i]) && TargetOf(es + [e], lineage[i]) == TargetOf(es, lineage[i])
    ensures IsTarget(es, TargetOf(es, lineage[i]))
  {
  }

  lemma {:induction false} CurrentGrows(lineage: seq<nat>, es: seq<Expansion>, e: Expansion)
    requires CurrentOk(lineage, es) && e.alternativeOf.None? && !IsTarget(es, e.target)
    ensures CurrentOk(lineage + [|es| + 1], es + [e])
  {
    var line, more := lineage + [|es| + 1], es + [e];
    forall i | 0 <= i < |lineage|
      ensures Primary(more, line[i]) && TargetOf(more, line[i]) == TargetOf(es, lineage[i]) != e.target
    {
      LineageStays(lineage, es, e, i);
    }
    assert Primary(more, line[|lineage|]) && TargetOf(more, line[|lineage|]) == e.target;
    forall k | 0 <= k < |more| ensures Covers(line, more, more[k].target) {
      if k < |es| { CoversStays(lineage, line, es, e, es[k].target); }
    }
    hide Primary, TargetOf, IsTarget, Covers;
  }

  lemma {:induction false} CurrentStays(lineage: seq<nat>, es: seq<Expansion>, e: Expansion)
    requires CurrentOk(lineage, es) && IsTarget(es, e.target)
    ensures CurrentOk(lineage, es + [e])
  {
    var more := es + [e];
    forall i | 0 <= i < |lineage|
      ensures Primary(more, lineage[i]) && TargetOf(more, lineage[i]) == TargetOf(es, lineage[i])
    {
      LineageStays(lineage, es, e, i);
    }
    forall k | 0 <= k < |more| ensures Covers(lineage, more, more[k].target) {
      var j :| 0 <= j < |es| && es[j].target == more[k].target;
      CoversStays(lineage, lineage, es, e, es[j].target);
    }
    hide Primary, TargetOf, IsTarget, Covers;
  }

  lemma {:induction false} AlternativeStays(es: seq<Expansion>, e: Expansion, id: nat)
    ensures AlternativeAt(es + [e], id) <==> AlternativeAt(es, id) || (id == |es| + 1 && e.alternativeOf.Some?)
  {
  }

  /** Growing the current branch keeps every fork. */
  lemma {:induction false} ForksGrow(branches: seq<Branch>, grown: seq<Branch>, es: seq<Expansion>, e: Expansion)
    requires |branches| >= 1 && ForksOk(branches, es) && e.alternativeOf.None?
    requires |grown| == |branches| && grown[0].expansions == branches[0].expansions + [|es| + 1]
    requires forall i :: 0 < i < |branches| ==> grown[i] == branches[i]
    ensures ForksOk(grown, es + [e])
  {
    forall i | 0 < i < |grown| ensures ForkOk(grown[0].expansions, es + [e], grown[i]) {
      assert ForkOk(branches[0].expansions, es, branches[i]);
      AlternativeStays(es, e, grown[i].expansions[|grown[i].expansions| - 1]);
    }
    hide ForkOk;
    forall id: nat | AlternativeAt(es + [e], id) ensures Forked(grown, id) {
      AlternativeStays(es, e, id);
      var i :| 0 < i < |branches| && branches[i].divergentAt == Some(id);
      assert grown[i].divergentAt == Some(id);
    }
  }

  /** An alternative adds its own fork and keeps the others. */
  lemma {:induction false} ForksAdd(branches: seq<Branch>, es: seq<Expansion>, e: Expansion, b: Branch)
    requires |branches| >= 1 && ForksOk(branches, es) && e.alternativeOf.Some?
    requires b.expansions == branches[0].expansions + [|es| + 1] && b.divergentAt == Some(|es| + 1)
    ensures ForksOk(branches + [b], es + [e])
  {
    var more := branches + [b];
    AlternativeStays(es, e, |es| + 1);
    forall i | 0 < i < |more| ensures ForkOk(more[0].expansions, es + [e], more[i]) {
      if i < |branches| {
        assert ForkOk(branches[0].expansions, es, branches[i]);
        AlternativeStays(es, e, more[i].expansions[|more[i].expansions| - 1]);
      } else {
        assert b.expansions[..|b.expansions| - 1] == branches[0].expansions;
      }
    }
    hide ForkOk;
    forall id: nat | AlternativeAt(es + [e], id) ensures Forked(more, id) {
      AlternativeStays(es, e, id);
      if id == |es| + 1 {
        assert more[|branches|].divergentAt == Some(id);
      } else {
        var i :| 0 < i < |branches| && branches[i].divergentAt == Some(id);
        assert more[i].divergentAt == Some(id);
      }
    }
  }

  /** The branches after a growth: one more, or the current one longer. */
  lemma {:induction false} GrownBranchList(t: Tree, r: Request, alternativeOf: Option<nat>, redundant: bool)
    requires CountersOk(t) && BranchesOk(t)
    ensures var u, id := Grow(t, r, alternativeOf, redundant), |t.expansions| + 1;
      && u.currentBranch == Some(1) && |u.branches| == u.branchSequence >= 1
      && |u.expansions| == id && u.expansions[..id - 1] == t.expansions
      && u.expansions[id - 1].target == r.target && u.expansions[id - 1].alternativeOf == alternativeOf
      && (alternativeOf.Some? ==>
        u.branches == t.branches + [Branch(|t.branches| + 1, t.branches[0].expansions + [id], Some(id))])
      && (alternativeOf.None? ==>
        && |u.branches| == |t.branches|
        && u.branches[0] == t.branches[0].(expansions := t.branches[0].expansions + [id])
        && forall i :: 0 < i < |t.branches| ==> u.branches[i] == t.branches[i])
  {
    CurrentIsFirst(t);
    hide Materialise, Restatus, CurrentOk, FindBranch, ForksOk, NamesExpansions, CurrentBranch;
  }

  lemma {:induction false} GrownBranches(t: Tree, r: Request, alternativeOf: Option<nat>, redundant: bool)
    requires CountersOk(t) && BranchesOk(t)
    requires alternativeOf.Some? <==> IsTarget(t.expansions, r.target)
    ensures var u := Grow(t, r, alternativeOf, redundant); BranchesOk(u) && |u.branches| == u.branchSequence
  {
    hide Grow, CurrentOk, IsTarget, ForksOk;
    GrownBranchList(t, r, alternativeOf, redundant);
    var u := Grow(t, r, alternativeOf, redundant);
    var e := u.expansions[|t.expansions|];
    assert u.expansions == t.expansions + [e];
    if alternativeOf.Some? {
      CurrentStays(t.branches[0].expansions, t.expansions, e);
      ForksAdd(t.branches, t.expansions, e, u.branches[|t.branches|]);
      assert u.branches[0] == t.branches[0];
    } else {
      CurrentGrows(t.branches[0].expansions, t.expansions, e);
      ForksGrow(t.branches, u.branches, t.expansions, e);
    }
    forall i | 0 <= i < |u.branches| ensures u.branches[i].id == i + 1 && NamesExpansions(u.branches[i], u.expansions) {
      if i < |t.branches| { assert NamesExpansions(t.branches[i], t.expansions); }
      assert NamesExpansions(t.branches[0], t.expansions);
    }
  }

  lemma {:induction false} GrownPruned(t: Tree, r: Request, alternativeOf: Option<nat>, redundant: bool)
    requires t.branches != [] && CountersOk(t) && NodesOk(t.nodes) && 1 <= r.target <= |t.nodes| && PrunedOk(t)
    requires !t.nodes[r.target - 1].status.AtomicLeaf? && !t.nodes[r.target - 1].status.Pruned?
    ensures PrunedOk(Grow(t, r, alternativeOf, redundant))
  {
    var u := Grow(t, r, alternativeOf, redundant);
    GrownNodes(t, r, alternativeOf, redundant);
    assert t.nodes[r.target - 1].id == r.target;
    assert r.target !in t.pruned;
    hide Materialise, Restatus, FindBranch;
  }

  lemma {:induction false} GrowOk(t: Tree, r: Request, alternativeOf: Option<nat>, redundant: bool)
    requires TreeOk(t) && 1 <= r.target <= |t.nodes| && r.childUnits != [] && (redundant ==> alternativeOf.Some?)
    requires !t.nodes[r.target - 1].status.AtomicLeaf? && !t.nodes[r.target - 1].status.Pruned?
    requires alternativeOf.Some? <==> IsTarget(t.expansions, r.target)
    requires alternativeOf.Some? ==> Anchors(t.expansions, alternativeOf.value, r.target)
    ensures TreeOk(Grow(t, r, alternativeOf, redundant))
  {
    GrownNodes(t, r, alternativeOf, redundant);
    GrownExpansions(t, r, alternativeOf, redundant);
    GrownBranches(t, r, alternativeOf, redundant);
    GrownPruned(t, r, alternativeOf, redundant);
    hide NodesOk, ExpansionsOk, BranchesOk, PrunedOk, Materialise, Restatus, IsTarget, AttachToBranch;
  }

  lemma {:induction false} GapOk(t: Tree, kind: GapKind, target: nat, blocking: bool)
    requires TreeOk(t)
    ensures TreeOk(RegisterGap(t, kind, target, blocking))
  {
    hide NodesOk, ExpansionsOk;
  }

  lemma {:induction false} ExpandKeeps(t: Tree, r: Request, alternativeOf: Option<nat>, redundant: bool)
    requires TreeOk(t) && (redundant ==> alternativeOf.Some?)
    requires alternativeOf.Some? <==> IsTarget(t.expansions, r.target)
    requires alternativeOf.Some? ==> Anchors(t.expansions, alternativeOf.value, r.target)
    ensures Expand(t, r, alternativeOf, redundant).Ok? ==> TreeOk(Expand(t, r, alternativeOf, redundant).value)
  {
    hide Closes, Grow, ExpansionsOk, BranchesOk, PrunedOk, IsTarget, FindNode;
    FindNodeExactly(t.nodes, 0, r.target);
    BranchesExist(t);
    if Expand(t, r, alternativeOf, redundant).Ok? {
      if Closes(r) {
        GrowOk(t, r, alternativeOf, redundant);
      } else {
        GapOk(t, UnitMismatch, r.target, true);
      }
    }
  }

  lemma {:induction false} ExpansionsAtExactly(es: seq<Expansion>, node: nat)
    ensures forall e :: e in ExpansionsAt(es, node) <==> e in es && e.target == node
  {
    if es != [] {
      ExpansionsAtExactly(es[1..], node);
      assert es == [es[0]] + es[1..];
    }
  }

  lemma {:induction false} OnBranchExactly(es: seq<Expansion>, branch: Branch)
    ensures forall e :: e in OnBranch(es, branch) <==> e in es && e.id in branch.expansions
  {
    if es != [] {
      OnBranchExactly(es[1..], branch);
      assert es == [es[0]] + es[1..];
    }
  }

  lemma {:induction false} AnchorFacts(t: Tree, target: nat, anchor: Expansion)
    requires TreeOk(t) && anchor in ExpansionsAt(t.expansions, target)
    ensures Anchors(t.expansions, anchor.id, target) && IsTarget(t.expansions, target)
  {
    ExpansionsAtExactly(t.expansions, target);
    var k :| 0 <= k < |t.expansions| && t.expansions[k] == anchor;
    hide NodesOk, BranchesOk, PrunedOk, ExpansionsAt;
    assert ExpansionOk(t.nodes, t.relationships, t.expansions, k);
  }

  lemma {:induction false} DominantIsCandidate(candidates: seq<Expansion>, branch: Branch)
    requires candidates != []
    ensures PickDominant(candidates, branch) in candidates
  {
    FirstOnIsCandidate(candidates, branch, candidates[0]);
  }

  lemma {:induction false} FirstOnIsCandidate(candidates: seq<Expansion>, branch: Branch, otherwise: Expansion)
    ensures FirstOn(candidates, branch, otherwise) in candidates || FirstOn(candidates, branch, otherwise) == otherwise
  {
    if candidates != [] { FirstOnIsCandidate(candidates[1..], branch, otherwise); }
  }

  lemma {:induction false} AlternativeKeeps(t: Tree, r: Request, anchor: Expansion)
    requires TreeOk(t) && anchor in ExpansionsAt(t.expansions, r.target)
    ensures Alternative(t, r, anchor).Ok? ==> TreeOk(Alternative(t, r, anchor).value)
  {
    AnchorFacts(t, r.target, anchor);
    hide TreeOk, Expand, RedundantAmong, RedundantExpansion, AnyOrphan;
    var redundant := RedundantExpansion(t, r, anchor) || RedundantAmong(t, r, ExpansionsAt(t.expansions, r.target));
    BranchesExist(t);
    ExpandKeeps(t, r, Some(anchor.id), redundant);
    var u := Expand(t, r, Some(anchor.id), redundant);
    if u.Ok? { GapOk(u.value, RedundantAlternative, r.target, false); }
  }

  lemma {:induction false} BranchesExist(t: Tree)
    requires TreeOk(t)
    ensures t.branches != []
  {
  }

  lemma {:induction false} CoveredOnBranch(t: Tree, node: nat)
    requires TreeOk(t) && IsTarget(t.expansions, node)
    ensures OnBranch(ExpansionsAt(t.expansions, node), t.branches[0]) != []
  {
    hide NodesOk, OnBranch, ExpansionsAt, PrunedOk;
    var at := ExpansionsAt(t.expansions, node);
    var line := t.branches[0].expansions;
    ExpansionsAtExactly(t.expansions, node);
    OnBranchExactly(at, t.branches[0]);
    assert Covers(line, t.expansions, node);
    var i :| 0 <= i < |line| && Primary(t.expansions, line[i]) && TargetOf(t.expansions, line[i]) == node;
    var e := t.expansions[line[i] - 1];
    assert ExpansionOk(t.nodes, t.relationships, t.expansions, line[i] - 1);
    assert e in OnBranch(at, t.branches[0]);
  }

  lemma {:induction false} OnBranchIsTarget(t: Tree, node: nat, branch: Branch)
    requires OnBranch(ExpansionsAt(t.expansions, node), branch) != []
    ensures IsTarget(t.expansions, node)
  {
    ExpansionsAtExactly(t.expansions, node);
    OnBranchExactly(ExpansionsAt(t.expansions, node), branch);
    var e := OnBranch(ExpansionsAt(t.expansions, node), branch)[0];
    assert e in t.expansions && e.target == node;
  }

  /** Where the current branch has no expansion, there is none at all. */
  lemma {:induction false} OffBranchMeansUnexpanded(t: Tree, node: nat)
    requires TreeOk(t)
    ensures OnBranch(ExpansionsAt(t.expansions, node), CurrentBranch(t)) == [] <==> !IsTarget(t.expansions, node)
  {
    CurrentIsFirst(t);
    if IsTarget(t.expansions, node) { CoveredOnBranch(t, node); }
    if OnBranch(ExpansionsAt(t.expansions, node), t.branches[0]) != [] { OnBranchIsTarget(t, node, t.branches[0]); }
  }

  /** Every expansion, accepted or recorded as a gap, keeps the shape of the tree. */
  lemma {:induction false} ExpandStateKeeps(t: Tree, r: Request)
    requires TreeOk(t)
    ensures t.branches != []
    ensures ExpandState(t, r).Ok? ==> TreeOk(ExpandState(t, r).value)
  {
    BranchesExist(t);
    OffBranchMeansUnexpanded(t, r.target);
    hide TreeOk, Expand, Alternative, ExpansionsAt, OnBranch, CurrentBranch, IsTarget;
    var here := OnBranch(ExpansionsAt(t.expansions, r.target), CurrentBranch(t));
    OnBranchExactly(ExpansionsAt(t.expansions, r.target), CurrentBranch(t));
    if here != [] {
      assert here[0] in here;
      AlternativeKeeps(t, r, here[0]);
    } else {
      ExpandKeeps(t, r, None, false);
    }
  }

  lemma {:induction false} ProposeAlternativeKeeps(t: Tree, r: Request)
    requires TreeOk(t)
    ensures t.branches != []
    ensures ProposeAlternative(t, r).Ok? ==> TreeOk(ProposeAlternative(t, r).value)
  {
    BranchesExist(t);
    ExpansionsAtExactly(t.expansions, r.target);
    var existing := ExpansionsAt(t.expansions, r.target);
    hide TreeOk, Alternative, ExpansionsAt, PickDominant, CurrentBranch;
    if existing != [] {
      DominantIsCandidate(existing, CurrentBranch(t));
      AlternativeKeeps(t, r, PickDominant(existing, CurrentBranch(t)));
    }
  }

  /** Promoting a node, or recording why it cannot be, keeps the shape. */
  lemma {:induction false} ProposeAtomKeeps(t: Tree, node: nat, claim: Claim)
    requires TreeOk(t)
    ensures t.branches != []
    ensures ProposeAtom(t, node, claim).Ok? <==> 1 <= node <= |t.nodes|
    ensures ProposeAtom(t, node, claim).Ok? ==> TreeOk(ProposeAtom(t, node, claim).value)
  {
    BranchesExist(t);
    FindNodeExactly(t.nodes, 0, node);
    hide FindNode, QuestionCompletes, BranchesOk;
    if 1 <= node <= |t.nodes| {
      if !claim.valid {
        GapOk(t, AtomRejected, node, true);
      } else if ClaimMismatch(claim, t.nodes[node - 1]) {
        GapOk(t, UnitMismatch, node, true);
      } else {
        StatusOk(t, {node}, AtomicLeaf, t.pruned, QuestionCompletes(t));
      }
    }
  }

  lemma {:induction false} StatusOk(t: Tree, ids: set<nat>, status: NodeStatus, pruned: set<nat>, atomic: bool)
    requires TreeOk(t) && PrunedOk(t.(pruned := pruned, nodes := SetStatus(t.nodes, ids, status)))
    ensures TreeOk(t.(nodes := SetStatus(t.nodes, ids, status), pruned := pruned,
                      questionAtomic := t.questionAtomic || atomic))
  {
    var nodes' := SetStatus(t.nodes, ids, status);
    forall k | 0 <= k < |t.expansions| ensures ExpansionOk(nodes', t.relationships, t.expansions, k) {
      ExpansionStays(t.nodes, t.relationships, t.expansions, nodes', t.relationships, t.expansions, k);
    }
    hide ExpansionOk, BranchesOk;
  }
}
