/** When the question itself becomes atomic, over whole runs of tree actions. */
module TreeCompletion {
  import opened Wrappers
  import opened Trees
  import Signatures
  import opened TreeShape
  import opened TreePruning
  import opened Flatten
  import opened TreeActions
  import opened TreeRefinement
  import opened TreeReach

  // --- one proposal ------------------------------------------------------------------------------

  /** The proposal promotes its node. */
  predicate Promotes(t: Tree, node: nat, claim: Claim) {
    1 <= node <= |t.nodes| && claim.valid && !ClaimMismatch(claim, t.nodes[node - 1])
  }

  /** Everything the current branch reaches, expanded nodes and the root included, is settled. */
  ghost predicate AllSettled(t: Tree)
    requires t.branches != []
  {
    forall id: nat :: id in ReachableIds(t) ==> 1 <= id <= |t.nodes| && Settled(t.nodes[id - 1], t.pruned)
  }

  lemma {:induction false} ReachableInRange(t: Tree, id: nat)
    requires TreeOk(t) && t.branches != [] && id in ReachableIds(t)
    ensures 1 <= id <= |t.nodes|
  {
    NodesNumbered(t);
    OneParentless(t);
    ReachableExactly(t, id);
    if k :| 0 <= k < |t.expansions| && Touches(t.expansions[k], CurrentBranch(t).expansions, id) {
      if id in t.expansions[k].children { ChildFacts(t, k, id); } else { TargetInRange(t, k); }
    }
    hide TreeOk, ReachableIds, CurrentBranch;
  }

  lemma {:induction false} RootIsReachable(t: Tree)
    requires TreeOk(t) && t.branches != []
    ensures |t.nodes| >= 1 && t.nodes[0].id == 1 && 1 in ReachableIds(t)
  {
    NodesNumbered(t);
    OneParentless(t);
    ReachableExactly(t, 1);
    hide TreeOk, ReachableIds, CurrentBranch;
    assert t.nodes[0].id == 1 && t.nodes[0].parent.None?;
  }

  /** The test made before a promotion passes exactly when the question is open and everything reachable is settled. */
  lemma {:induction false} CompletesExactly(t: Tree)
    requires TreeOk(t) && t.branches != []
    ensures QuestionCompletes(t) <==> !t.questionAtomic && AllSettled(t)
  {
    NodesNumbered(t);
    OneParentless(t);
    RootIsReachable(t);
    forall id: nat | id in ReachableIds(t) ensures 1 <= id <= |t.nodes| { ReachableInRange(t, id); }
    SettledByIndex(t.nodes, ReachableIds(t), t.pruned);
    hide TreeOk, ReachableIds, Settled;
  }

  /** Identifiers are positions, so settling a set of nodes is settling those identifiers. */
  lemma {:induction false} SettledByIndex(nodes: seq<Node>, ids: set<nat>, pruned: set<nat>)
    requires forall i :: 0 <= i < |nodes| ==> nodes[i].id == i + 1
    requires forall id: nat :: id in ids ==> 1 <= id <= |nodes|
    ensures (forall i :: 0 <= i < |nodes| && nodes[i].id in ids ==> Settled(nodes[i], pruned))
       <==> (forall id: nat :: id in ids ==> Settled(nodes[id - 1], pruned))
  {
    hide Settled;
    if forall i :: 0 <= i < |nodes| && nodes[i].id in ids ==> Settled(nodes[i], pruned) {
      forall id: nat | id in ids ensures Settled(nodes[id - 1], pruned) { assert nodes[id - 1].id == id; }
    }
    if forall id: nat :: id in ids ==> Settled(nodes[id - 1], pruned) {
      forall i | 0 <= i < |nodes| && nodes[i].id in ids ensures Settled(nodes[i], pruned) {
        assert nodes[nodes[i].id - 1] == nodes[i];
      }
    }
  }

  /** A proposal makes an open question atomic if and only if it promotes its node and everything the
      current branch reaches was settled before the call: the node being promoted counts as it stood. */
  lemma {:induction false} ProposalCompletesExactly(t: Tree, node: nat, claim: Claim)
    requires TreeOk(t) && t.branches != [] && ProposeAtom(t, node, claim).Ok?
    ensures var u := ProposeAtom(t, node, claim).value;
      u.questionAtomic <==> t.questionAtomic || (Promotes(t, node, claim) && AllSettled(t))
  {
    CompletesExactly(t);
    NodesNumbered(t);
    FindNodeExactly(t.nodes, 0, node);
    hide TreeOk, FindNode, QuestionCompletes, AllSettled;
  }

  // --- a run ---------------------------------------------------------------------------------------

  /** The run proposed the node as an atom. */
  ghost predicate Proposed(actions: seq<TreeAction>, id: nat) {
    exists i :: 0 <= i < |actions| && ProposedAt(actions[i], id)
  }

  predicate ProposedAt(a: TreeAction, id: nat) {
    a.AtomAction? && a.node == id
  }

  lemma {:induction false} ProposedSnoc(actions: seq<TreeAction>, a: TreeAction, id: nat)
    ensures Proposed(actions + [a], id) <==> Proposed(actions, id) || ProposedAt(a, id)
  {
    var more := actions + [a];
    if Proposed(actions, id) {
      var i :| 0 <= i < |actions| && ProposedAt(actions[i], id);
      assert ProposedAt(more[i], id);
    }
    if ProposedAt(a, id) { assert ProposedAt(more[|actions|], id); }
  }

  /** A status the actions can give, and atomic exactly for the nodes the run proposed. */
  ghost predicate StatusOk(node: Node, id: nat, actions: seq<TreeAction>) {
    && (node.status.Open? || node.status.Expanded? || node.status.AtomicLeaf?)
    && (node.status.AtomicLeaf? <==> Proposed(actions, id))
  }

  /** No action prunes, and the atomic nodes are those proposed, all of them known. */
  ghost predicate RunOk(t: Tree, actions: seq<TreeAction>) {
    && t.pruned == {}
    && (forall i: nat :: i < |t.nodes| ==> StatusOk(t.nodes[i], i + 1, actions))
    && (forall id: nat :: Proposed(actions, id) ==> 1 <= id <= |t.nodes|)
  }

  /** Everything the branch reaches was proposed as an atom. */
  ghost predicate AllProposed(t: Tree, actions: seq<TreeAction>)
    requires t.branches != []
  {
    forall id: nat :: id in ReachableIds(t) ==> Proposed(actions, id)
  }

  lemma {:induction false} SettledIsProposed(t: Tree, actions: seq<TreeAction>)
    requires TreeOk(t) && t.branches != [] && RunOk(t, actions)
    ensures AllSettled(t) <==> AllProposed(t, actions)
  {
    forall id: nat | id in ReachableIds(t)
      ensures 1 <= id <= |t.nodes| && (Settled(t.nodes[id - 1], t.pruned) <==> Proposed(actions, id))
    {
      ReachableInRange(t, id);
      assert StatusOk(t.nodes[id - 1], id - 1 + 1, actions);
    }
    hide TreeOk, ReachableIds, Settled, Proposed, RunOk;
  }

  lemma {:induction false} GrowRun(t: Tree, r: Request, alternativeOf: Option<nat>, redundant: bool,
                                   actions: seq<TreeAction>, a: TreeAction)
    requires TreeOk(t) && t.branches != [] && RunOk(t, actions) && Expandable(t, r.target) && !a.AtomAction?
    ensures var u := Grow(t, r, alternativeOf, redundant);
      RunOk(u, actions + [a]) && u.questionAtomic == t.questionAtomic
  {
    var u := Grow(t, r, alternativeOf, redundant);
    GrownNodes(t, r, alternativeOf, redundant);
    forall id ensures Proposed(actions + [a], id) <==> Proposed(actions, id) { ProposedSnoc(actions, a, id); }
    GrowKeepsFlags(t, r, alternativeOf, redundant);
    hide Grow, NodesOk, ExpansionsOk, BranchesOk, PrunedOk, Proposed;
    forall i: nat | i < |u.nodes| ensures StatusOk(u.nodes[i], i + 1, actions + [a]) {
      if i < |t.nodes| { assert StatusOk(t.nodes[i], i + 1, actions); }
    }
  }

  lemma {:induction false} GrowKeepsFlags(t: Tree, r: Request, alternativeOf: Option<nat>, redundant: bool)
    requires t.branches != []
    ensures var u := Grow(t, r, alternativeOf, redundant); u.pruned == t.pruned && u.questionAtomic == t.questionAtomic
  {
    hide Materialise, Restatus, CurrentBranch;
  }

  /** An accepted atom action names a known node, changes at most that node's status, and leaves it atomic. */
  lemma {:induction false} AtomComesTo(t: Tree, node: nat, claim: Claim)
    requires TreeOk(t) && t.branches != [] && ApplyAction(t, AtomAction(node, claim)).Ok?
    ensures 1 <= node <= |t.nodes|
    ensures var u := ApplyAction(t, AtomAction(node, claim)).value;
      && u.pruned == t.pruned && |u.nodes| == |t.nodes| && u.nodes[node - 1].status.AtomicLeaf?
      && (forall i :: 0 <= i < |t.nodes| && i + 1 != node ==> u.nodes[i].status == t.nodes[i].status)
  {
    NodesNumbered(t);
    FindNodeExactly(t.nodes, 0, node);
    var u := ApplyAction(t, AtomAction(node, claim)).value;
    AtomLeaves(t, node, claim);
    hide TreeOk, ApplyAction, FindNode;
    FindNodeExactly(u.nodes, 0, node);
  }

  lemma {:induction false} AtomLeaves(t: Tree, node: nat, claim: Claim)
    requires t.branches != [] && ApplyAction(t, AtomAction(node, claim)).Ok?
    requires forall i :: 0 <= i < |t.nodes| ==> t.nodes[i].id == i + 1
    ensures var u := ApplyAction(t, AtomAction(node, claim)).value;
      && FindNode(t.nodes, node).Some? && FindNode(u.nodes, node).Some?
      && FindNode(u.nodes, node).value.status.AtomicLeaf?
      && u.pruned == t.pruned && |u.nodes| == |t.nodes|
      && (forall i :: 0 <= i < |t.nodes| ==>
         u.nodes[i].id == i + 1 && (i + 1 != node ==> u.nodes[i].status == t.nodes[i].status))
  {
    hide FindNode, QuestionCompletes;
  }

  lemma {:induction false} AtomRun(t: Tree, node: nat, claim: Claim, actions: seq<TreeAction>)
    requires TreeOk(t) && t.branches != [] && RunOk(t, actions) && ApplyAction(t, AtomAction(node, claim)).Ok?
    ensures RunOk(ApplyAction(t, AtomAction(node, claim)).value, actions + [AtomAction(node, claim)])
  {
    var a := AtomAction(node, claim);
    var u := ApplyAction(t, a).value;
    AtomComesTo(t, node, claim);
    forall id ensures Proposed(actions + [a], id) <==> Proposed(actions, id) || id == node
    {
      ProposedSnoc(actions, a, id);
    }
    hide TreeOk, ApplyAction, Proposed;
    forall i: nat | i < |u.nodes| ensures StatusOk(u.nodes[i], i + 1, actions + [a]) {
      assert StatusOk(t.nodes[i], i + 1, actions);
      assert i + 1 != node ==> u.nodes[i].status == t.nodes[i].status;
    }
    hide StatusOk;
  }

  /** One more action: the invariant, and exactly when the question becomes atomic. */
  lemma {:induction false} RunStep(t: Tree, actions: seq<TreeAction>, a: TreeAction)
    requires TreeOk(t) && t.branches != [] && RunOk(t, actions) && ApplyAction(t, a).Ok?
    ensures RunOk(ApplyAction(t, a).value, actions + [a])
    ensures ApplyAction(t, a).value.questionAtomic <==> t.questionAtomic || Completing(t, actions, a)
  {
    hide TreeOk, RunOk, Grow, ReachableIds, AllProposed, AllSettled;
    match a
    case AtomAction(node, claim) =>
      AtomRun(t, node, claim, actions);
      ProposalCompletesExactly(t, node, claim);
      SettledIsProposed(t, actions);
      hide ProposeAtom, FindNode;
    case ExpandAction(_) =>
      var alternativeOf, redundant := ActionGrows(t, a);
      GrowRun(t, a.request, alternativeOf, redundant, actions, a);
      GapRun(Grow(t, a.request, alternativeOf, redundant), a.request.target, actions + [a]);
      hide ApplyAction;
    case AlternativeAction(_) =>
      var alternativeOf, redundant := ActionGrows(t, a);
      GrowRun(t, a.request, alternativeOf, redundant, actions, a);
      GapRun(Grow(t, a.request, alternativeOf, redundant), a.request.target, actions + [a]);
      hide ApplyAction;
  }

  lemma {:induction false} GapRun(t: Tree, target: nat, actions: seq<TreeAction>)
    requires RunOk(t, actions)
    ensures
      var u := RegisterGap(t, RedundantAlternative, target, false);
      RunOk(u, actions) && u.questionAtomic == t.questionAtomic
  {
    hide StatusOk, Proposed;
  }

  /** The action promotes a node when everything the branch reaches, the root included, had been proposed
      before. */
  ghost predicate Completing(t: Tree, actions: seq<TreeAction>, a: TreeAction)
    requires t.branches != []
  {
    a.AtomAction? && Promotes(t, a.node, a.claim) && AllProposed(t, actions)
  }

  /** The `k`-th action of the run is such a promotion. */
  ghost predicate CompletingAt(start: Tree, actions: seq<TreeAction>, k: nat)
    requires TreeOk(start) && k < |actions|
  {
    && Rebuild(start, actions[..k]).Ok?
    && var t := Rebuild(start, actions[..k]).value;
    && t.branches != [] && Completing(t, actions[..k], actions[k])
  }

  ghost predicate SomeCompleting(start: Tree, actions: seq<TreeAction>)
    requires TreeOk(start)
  {
    exists k: nat :: k < |actions| && CompletingAt(start, actions, k)
  }

  lemma {:induction false} SomeCompletingSnoc(start: Tree, actions: seq<TreeAction>, n: nat)
    requires TreeOk(start) && |actions| == n + 1
    ensures SomeCompleting(start, actions) <==> SomeCompleting(start, actions[..n]) || CompletingAt(start, actions, n)
  {
    hide TreeOk, Rebuild, Completing;
    forall k: nat | k < n ensures CompletingAt(start, actions, k) <==> CompletingAt(start, actions[..n], k) {
      assert actions[..n][..k] == actions[..k];
    }
    hide CompletingAt;
    if SomeCompleting(start, actions[..n]) {
      var k: nat :| k < n && CompletingAt(start, actions[..n], k);
      assert CompletingAt(start, actions, k);
    }
  }

  /** In every run the question ends atomic if and only if some proposal promoted a node when everything
      the branch then reached had already been proposed as an atom by an earlier action. */
  lemma {:induction false} QuestionAtomicExactly(start: Tree, actions: seq<TreeAction>)
    requires TreeOk(start) && RunOk(start, []) && !start.questionAtomic && Rebuild(start, actions).Ok?
    ensures RunOk(Rebuild(start, actions).value, actions)
    ensures Rebuild(start, actions).value.questionAtomic <==> SomeCompleting(start, actions)
  {
    hide TreeOk, RunOk, ApplyAction, SomeCompleting, Completing;
    if actions == [] {
      NoneCompleting(start);
    } else {
      var n := |actions| - 1;
      var before := actions[..n];
      QuestionAtomicExactly(start, before);
      var t := Rebuild(start, before).value;
      BranchesExist(t);
      RunStep(t, before, actions[n]);
      SomeCompletingSnoc(start, actions, n);
      assert before + [actions[n]] == actions;
    }
  }

  lemma {:induction false} CompletedAt(start: Tree, actions: seq<TreeAction>, k: nat)
    requires TreeOk(start) && k < |actions| && CompletingAt(start, actions, k)
    ensures SomeCompleting(start, actions)
  {
  }

  lemma {:induction false} NoneCompleting(start: Tree)
    requires TreeOk(start)
    ensures !SomeCompleting(start, [])
  {
  }

  lemma {:induction false} CreateRun(printer: Signatures.Printer, rootUnit: Option<UnitText>, incomplete: bool)
    ensures RunOk(Create(printer, rootUnit, incomplete), []) && !Create(printer, rootUnit, incomplete).questionAtomic
  {
  }

  /** Whatever else a run proposes, the question stays open until the root itself was proposed and some
      proposal follows. */
  lemma {:induction false} RootMustBeProposed(printer: Signatures.Printer, rootUnit: Option<UnitText>,
                                              incomplete: bool, actions: seq<TreeAction>)
    requires TreeOk(Create(printer, rootUnit, incomplete))
      && Rebuild(Create(printer, rootUnit, incomplete), actions).Ok?
    requires |actions| > 0 && !Proposed(actions[..|actions| - 1], 1)
    ensures !Rebuild(Create(printer, rootUnit, incomplete), actions).value.questionAtomic
  {
    var start := Create(printer, rootUnit, incomplete);
    CreateRun(printer, rootUnit, incomplete);
    hide TreeOk, RunOk, Create, Rebuild;
    QuestionAtomicExactly(start, actions);
    forall k: nat | k < |actions| ensures !CompletingAt(start, actions, k) {
      if CompletingAt(start, actions, k) {
        var t := Rebuild(start, actions[..k]).value;
        RootAmongProposed(t, actions[..k]);
        ProposedEarlier(actions, k, |actions| - 1, 1);
      }
    }
  }

  lemma {:induction false} ProposedEarlier(actions: seq<TreeAction>, k: nat, n: nat, id: nat)
    requires k <= n <= |actions| && Proposed(actions[..k], id)
    ensures Proposed(actions[..n], id)
  {
    var i :| 0 <= i < k && ProposedAt(actions[..k][i], id);
    assert ProposedAt(actions[..n][i], id);
  }

  lemma {:induction false} RootAmongProposed(t: Tree, actions: seq<TreeAction>)
    requires TreeOk(t) && t.branches != [] && AllProposed(t, actions)
    ensures Proposed(actions, 1)
  {
    RootIsReachable(t);
    hide TreeOk, ReachableIds, Proposed;
  }

  // --- a tree on each side ---------------------------------------------------------------------------

  /** An unconditional claim for a node. */
  function Promote(node: nat): TreeAction {
    AtomAction(node, Claim(true, None))
  }

  /** Expand the root into one child, promote the child, then the root, then the root once more. */
  function ChildThenRootTwice(): seq<TreeAction> {
    [ExpandAction(OneChild(1, false)), Promote(2), Promote(1), Promote(1)]
  }

  /** Every unexpanded node is an atomic leaf. */
  ghost predicate LeavesAtomic(t: Tree)
    requires t.branches != []
  {
    forall n: nat :: 1 <= n <= |t.nodes| && ActiveAt(t, n).None? ==> t.nodes[n - 1].status.AtomicLeaf?
  }

  lemma {:induction false} PromoteStep(t: Tree, node: nat)
    requires TreeOk(t) && t.branches != [] && 1 <= node <= |t.nodes|
    ensures ApplyAction(t, Promote(node)).Ok?
    ensures var u := ApplyAction(t, Promote(node)).value;
      && TreeOk(u) && u.branches != [] && u.expansions == t.expansions && |u.nodes| == |t.nodes|
      && forall i :: 0 <= i < |t.nodes| ==> u.nodes[i].status == if i + 1 == node then AtomicLeaf else t.nodes[i].status
  {
    NodesNumbered(t);
    FindNodeExactly(t.nodes, 0, node);
    var u := ProposeAtom(t, node, Claim(true, None)).value;
    ActionKeeps(t, Promote(node));
    hide TreeOk, FindNode, QuestionCompletes;
    assert forall i :: 0 <= i < |u.nodes| ==> u.nodes[i].id == i + 1;
    FindNodeExactly(u.nodes, 0, node);
  }

  lemma {:induction false} ThreePromotions(t1: Tree) returns (t2: Tree, t3: Tree, t4: Tree)
    requires TreeOk(t1) && t1.branches != [] && |t1.nodes| == 2 && IsTarget(t1.expansions, 1)
    ensures ApplyAction(t1, Promote(2)) == Ok(t2) && t2.branches != [] && TreeOk(t2) && LeavesAtomic(t2)
    ensures ApplyAction(t2, Promote(1)) == Ok(t3) && t3.branches != [] && |t3.nodes| == 2 && TreeOk(t3)
    ensures ApplyAction(t3, Promote(1)) == Ok(t4)
  {
    hide TreeOk, ApplyAction, ActiveAt, IsTarget;
    PromoteStep(t1, 2);
    t2 := ApplyAction(t1, Promote(2)).value;
    PromoteStep(t2, 1);
    t3 := ApplyAction(t2, Promote(1)).value;
    PromoteStep(t3, 1);
    t4 := ApplyAction(t3, Promote(1)).value;
    ActiveFacts(t2, 1);
  }

  lemma {:induction false} RebuildFour(start: Tree, run: seq<TreeAction>, t1: Tree, t2: Tree, t3: Tree, t4: Tree)
    requires TreeOk(start) && |run| == 4 && start.branches != [] && t1.branches != [] && t2.branches != []
      && t3.branches != []
    requires ApplyAction(start, run[0]) == Ok(t1) && ApplyAction(t1, run[1]) == Ok(t2)
    requires ApplyAction(t2, run[2]) == Ok(t3) && ApplyAction(t3, run[3]) == Ok(t4)
    ensures Rebuild(start, run[..2]) == Ok(t2) && Rebuild(start, run[..3]) == Ok(t3) && Rebuild(start, run) == Ok(t4)
  {
    hide TreeOk, ApplyAction;
    assert [] + [run[0]] + [run[1]] == run[..2] && run[..2] + [run[2]] == run[..3] && run[..3] + [run[3]] == run;
    RebuildOne(start, [], start, run[0]);
    RebuildOne(start, [] + [run[0]], t1, run[1]);
    RebuildOne(start, run[..2], t2, run[2]);
    RebuildOne(start, run[..3], t3, run[3]);
  }

  lemma {:induction false} RunOfFour(printer: Signatures.Printer) returns (t2: Tree, t3: Tree, t4: Tree)
    ensures TreeOk(Create(printer, None, false))
    ensures Rebuild(Create(printer, None, false), ChildThenRootTwice()[..2]) == Ok(t2)
    ensures Rebuild(Create(printer, None, false), ChildThenRootTwice()[..3]) == Ok(t3)
    ensures Rebuild(Create(printer, None, false), ChildThenRootTwice()) == Ok(t4)
    ensures t2.branches != [] && LeavesAtomic(t2)
    ensures t3.branches != [] && |t3.nodes| == 2 && TreeOk(t3)
  {
    CreateOk(printer, None, false);
    var t0 := Create(printer, None, false);
    var t1 := FirstStep(printer);
    hide TreeOk, ApplyAction, OneChild, LeavesAtomic;
    BranchesExist(t0);
    BranchesExist(t1);
    assert IsTarget(t1.expansions, 1) by { assert t1.expansions[0].target == 1; }
    t2, t3, t4 := ThreePromotions(t1);
    RebuildFour(t0, ChildThenRootTwice(), t1, t2, t3, t4);
  }

  /** With every leaf atomic the question is open, for its expanded root counts as well; with everything
      reachable settled it is still open, for the test looks at the state before the promotion; promoting
      the root a second time makes it atomic. */
  lemma {:induction false} OpenUntilRootTwice(printer: Signatures.Printer)
    ensures TreeOk(Create(printer, None, false))
    ensures
      var leaves := Rebuild(Create(printer, None, false), ChildThenRootTwice()[..2]);
      leaves.Ok? && leaves.value.branches != [] && LeavesAtomic(leaves.value) && !leaves.value.questionAtomic
    ensures
      var all := Rebuild(Create(printer, None, false), ChildThenRootTwice()[..3]);
      all.Ok? && all.value.branches != [] && AllSettled(all.value) && !all.value.questionAtomic
    ensures
      var again := Rebuild(Create(printer, None, false), ChildThenRootTwice());
      again.Ok? && again.value.questionAtomic
  {
    var t2, t3, t4 := RunOfFour(printer);
    var t0, run := Create(printer, None, false), ChildThenRootTwice();
    CreateRun(printer, None, false);
    hide TreeOk, RunOk, Create, Rebuild, OneChild, AllSettled, LeavesAtomic, ReachableIds, SomeCompleting;
    forall k: nat | k <= 2 ensures !Proposed(run[..k], 1) {}
    assert run[..2][..1] == run[..1] && run[..3][..2] == run[..2];
    RootMustBeProposed(printer, None, false, run[..2]);
    RootMustBeProposed(printer, None, false, run[..3]);
    QuestionAtomicExactly(t0, run[..3]);
    assert ProposedAt(run[..3][1], 2) && ProposedAt(run[..3][2], 1);
    forall id: nat | id in ReachableIds(t3) ensures Proposed(run[..3], id) { ReachableInRange(t3, id); }
    SettledIsProposed(t3, run[..3]);
    QuestionAtomicExactly(t0, run);
    assert Completing(t3, run[..3], run[3]);
    CompletedAt(t0, run, 3);
  }
}
