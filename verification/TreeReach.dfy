/** The frontier's reachable set against what the root reaches on the current branch. */
module TreeReach {
  import opened Wrappers
  import opened Expressions
  import opened Trees
  import opened TreeShape
  import opened TreePruning
  import opened Flatten
  import opened TreeActions
  import opened TreeRefinement
  import opened Dimensions
  import Signatures

  /** Parentless nodes and both ends of the branch's expansions, collected in one pass. */
  method ReachableNodeIds(t: Tree) returns (reachable: set<nat>)
    requires t.branches != []
    ensures reachable == ReachableIds(t)
  {
    var lineage := CurrentBranch(t).expansions;
    reachable := set i | 0 <= i < |t.nodes| && t.nodes[i].parent.None? :: t.nodes[i].id;
    ghost var roots := reachable;
    for k := 0 to |t.expansions|
      invariant forall x :: x in reachable <==>
        x in roots || exists j :: 0 <= j < k && Touches(t.expansions[j], lineage, x)
    {
      var e := t.expansions[k];
      if e.id in lineage {
        reachable := reachable + {e.target} + (set c | c in e.children);
      }
      assert forall x :: Touches(e, lineage, x) <==> e.id in lineage && (x == e.target || x in e.children);
    }
    forall x ensures x in reachable <==> x in ReachableIds(t) { ReachableExactly(t, x); }
  }

  predicate Touches(e: Expansion, lineage: seq<nat>, x: nat) {
    e.id in lineage && (x == e.target || x in e.children)
  }

  lemma {:induction false} ReachableExactly(t: Tree, x: nat)
    requires t.branches != []
    ensures x in ReachableIds(t) <==>
      || (exists i :: 0 <= i < |t.nodes| && t.nodes[i].parent.None? && t.nodes[i].id == x)
      || (exists k :: 0 <= k < |t.expansions| && Touches(t.expansions[k], CurrentBranch(t).expansions, x))
  {
    hide CurrentBranch;
    if k :| 0 <= k < |t.expansions| && Touches(t.expansions[k], CurrentBranch(t).expansions, x) {
      if x != t.expansions[k].target { assert x in t.expansions[k].children; }
    }
  }

  /** What the root reaches through active expansions. */
  ghost predicate RootReaches(t: Tree, m: nat)
    requires t.branches != []
  {
    Reached(t, m, 1)
  }

  /** On the current branch every listed expansion is the active one at its node. */
  lemma {:induction false} ListedIsActive(t: Tree, k: nat)
    requires TreeOk(t) && t.branches != [] && k < |t.expansions| && t.expansions[k].id in CurrentBranch(t).expansions
    ensures ActiveAt(t, t.expansions[k].target) == Some(t.expansions[k])
  {
    var e := t.expansions[k];
    assert IsTarget(t.expansions, e.target);
    ActiveFacts(t, e.target);
    var a := ActiveAt(t, e.target).value;
    ExpansionFacts(t, k);
    ActiveListed(t, e.target);
    SameTargetSame(t, e.id, a.id);
  }

  lemma {:induction false} ActiveListed(t: Tree, n: nat)
    requires t.branches != [] && ActiveAt(t, n).Some?
    ensures ActiveAt(t, n).value.id in CurrentBranch(t).expansions
  {
    ActiveIsTarget(t.expansions, CurrentBranch(t).expansions, n);
  }

  lemma {:induction false} SameTargetSame(t: Tree, a: nat, b: nat)
    requires TreeOk(t) && t.branches != [] && a in CurrentBranch(t).expansions && b in CurrentBranch(t).expansions
    requires TargetOf(t.expansions, a) == TargetOf(t.expansions, b)
    ensures a == b
  {
    CurrentIsFirst(t);
    hide NodesOk, ExpansionsOk, PrunedOk, CurrentBranch;
    var line := t.branches[0].expansions;
    forall x, y | 0 <= x < y < |line| ensures TargetOf(t.expansions, line[x]) != TargetOf(t.expansions, line[y]) {}
    var i :| 0 <= i < |line| && line[i] == a;
    var j :| 0 <= j < |line| && line[j] == b;
  }

  /** Whatever the root reaches is in the reachable set. */
  lemma {:induction false} ReachableCovers(t: Tree, m: nat)
    requires TreeOk(t) && t.branches != [] && RootReaches(t, m)
    ensures m in ReachableIds(t)
  {
    ReachableExactly(t, m);
    NodesNumbered(t);
    OneParentless(t);
    hide TreeOk, ReachableIds, CurrentBranch, ActiveAt;
    if m == 1 {
      assert t.nodes[0].id == 1;
    } else {
      var p := t.nodes[m - 1].parent.value;
      ActiveFacts(t, p);
      ActiveListed(t, p);
      var e := ActiveAt(t, p).value;
      assert Touches(t.expansions[e.id - 1], CurrentBranch(t).expansions, m);
    }
  }

  ghost predicate AllAttached(t: Tree)
    requires t.branches != []
  {
    forall k :: 0 <= k < |t.expansions| && t.expansions[k].id in CurrentBranch(t).expansions ==>
      RootReaches(t, t.expansions[k].target)
  }

  /** The reachable set is what the root reaches exactly when every expansion of the current branch
      stands on a node the root reaches. */
  lemma {:induction false} ReachableExactlyWhenAttached(t: Tree)
    requires TreeOk(t) && t.branches != []
    ensures (forall m :: m in ReachableIds(t) <==> RootReaches(t, m)) <==> AllAttached(t)
  {
    NodesNumbered(t);
    OneParentless(t);
    hide TreeOk, ReachableIds, CurrentBranch, ActiveAt, Below;
    forall m | RootReaches(t, m) ensures m in ReachableIds(t) { ReachableCovers(t, m); }
    if AllAttached(t) {
      forall m | m in ReachableIds(t) ensures RootReaches(t, m) { AttachedReached(t, m); }
    }
    if forall m :: m in ReachableIds(t) <==> RootReaches(t, m) {
      forall k | 0 <= k < |t.expansions| && t.expansions[k].id in CurrentBranch(t).expansions
        ensures RootReaches(t, t.expansions[k].target)
      {
        ReachableExactly(t, t.expansions[k].target);
        assert Touches(t.expansions[k], CurrentBranch(t).expansions, t.expansions[k].target);
      }
    }
  }

  lemma {:induction false} ChildReached(t: Tree, k: nat, m: nat)
    requires TreeOk(t) && t.branches != [] && k < |t.expansions| && t.expansions[k].id in CurrentBranch(t).expansions
    requires RootReaches(t, t.expansions[k].target) && m in t.expansions[k].children
    ensures RootReaches(t, m)
  {
    ListedIsActive(t, k);
    ChildFacts(t, k, m);
    hide TreeOk, CurrentBranch, ActiveAt;
  }

  lemma {:induction false} AttachedReached(t: Tree, m: nat)
    requires TreeOk(t) && t.branches != [] && AllAttached(t) && m in ReachableIds(t)
    ensures RootReaches(t, m)
  {
    NodesNumbered(t);
    OneParentless(t);
    ReachableExactly(t, m);
    BelowSelf(t, 1);
    hide TreeOk, ReachableIds, CurrentBranch, ActiveAt, Below;
    if k :| 0 <= k < |t.expansions| && Touches(t.expansions[k], CurrentBranch(t).expansions, m) {
      if m != t.expansions[k].target { ChildReached(t, k, m); }
    }
  }

  // --- the frontier -----------------------------------------------------------------------------

  /** An open end of the current branch. */
  predicate OnFrontier(t: Tree, reachable: set<nat>, n: Node)
    requires t.branches != []
  {
    && n.id in reachable && n.id !in t.pruned
    && (n.status.Open? || (n.status.Expanded? && OnBranch(ExpansionsAt(t.expansions, n.id), CurrentBranch(t)) == []))
  }

  method Frontier(t: Tree) returns (frontier: seq<Node>)
    requires t.branches != []
    ensures forall n :: n in frontier <==> n in t.nodes && OnFrontier(t, ReachableIds(t), n)
  {
    hide ReachableIds, CurrentBranch, OnBranch, ExpansionsAt;
    var reachable := ReachableNodeIds(t);
    frontier := [];
    for i := 0 to |t.nodes|
      invariant forall n :: n in frontier <==> n in t.nodes[..i] && OnFrontier(t, reachable, n)
    {
      var node := t.nodes[i];
      assert t.nodes[..i + 1] == t.nodes[..i] + [node];
      if node.id !in reachable || node.id in t.pruned { continue; }
      if node.status.AtomicLeaf? || node.status.Unresolved? || node.status.Rejected? || node.status.Pruned? {
        continue;
      }
      var here := OnBranch(ExpansionsAt(t.expansions, node.id), CurrentBranch(t));
      if here != [] && node.status.Expanded? { continue; }
      frontier := frontier + [node];
    }
    assert t.nodes[..|t.nodes|] == t.nodes;
  }

  // --- attached runs ------------------------------------------------------------------------------

  lemma {:induction false} ChildrenAreNew(t: Tree, r: Request, m: nat)
    requires TreeOk(t) && m in Range(t.nodeSequence + 1, |r.childUnits|)
    ensures m > |t.nodes|
  {
    hide NodesOk, ExpansionsOk, BranchesOk, PrunedOk;
  }

  /** Growing the tree changes nothing about which of the nodes it had the root reaches. */
  lemma {:induction false} BelowStays(t: Tree, r: Request, alternativeOf: Option<nat>, redundant: bool, m: nat)
    requires TreeOk(t) && t.branches != [] && (redundant ==> alternativeOf.Some?) && 1 <= m <= |t.nodes|
    requires alternativeOf.Some? <==> IsTarget(t.expansions, r.target)
    requires var u := Grow(t, r, alternativeOf, redundant);
      && u.branches != [] && |t.nodes| <= |u.nodes|
      && forall i :: 0 <= i < |t.nodes| ==> u.nodes[i].parent == t.nodes[i].parent
    ensures Below(Grow(t, r, alternativeOf, redundant), m, 1) <==> Below(t, m, 1)
    decreases m
  {
    var u := Grow(t, r, alternativeOf, redundant);
    hide TreeOk, Grow, ActiveAt, IsTarget;
    if m > 1 {
      OneParentless(t);
      var p := t.nodes[m - 1].parent.value;
      GrownActive(t, r, alternativeOf, redundant, p);
      ActiveFacts(t, p);
      if alternativeOf.None? && p == r.target && m in NewExpansion(t, r, alternativeOf, redundant).children {
        ChildrenAreNew(t, r, m);
      }
      BelowStays(t, r, alternativeOf, redundant, p);
    }
  }

  /** The expansions of the current branch. */
  predicate Listed(t: Tree, k: nat)
    requires t.branches != []
  {
    k < |t.expansions| && t.expansions[k].id in CurrentBranch(t).expansions
  }

  lemma {:induction false} GrownListed(t: Tree, r: Request, alternativeOf: Option<nat>, redundant: bool, k: nat)
    requires TreeOk(t) && t.branches != []
    ensures var u := Grow(t, r, alternativeOf, redundant);
      && u.branches != [] && |u.expansions| == |t.expansions| + 1 && u.expansions[|t.expansions|].target == r.target
      && (Listed(u, k) <==> Listed(t, k) || (k == |t.expansions| && alternativeOf.None?))
      && (k < |t.expansions| ==> u.expansions[k] == t.expansions[k])
  {
    GrownCurrent(t, r, alternativeOf, redundant);
    ExpansionsNumbered(t);
    var line := CurrentBranch(t).expansions;
    if t.expansionSequence + 1 in line { LineageBelow(t, t.expansionSequence + 1); }
    hide TreeOk, Grow, CurrentBranch;
  }

  lemma {:induction false} GrownAttached(t: Tree, r: Request, alternativeOf: Option<nat>, redundant: bool)
    requires TreeOk(t) && t.branches != [] && (redundant ==> alternativeOf.Some?) && 1 <= r.target <= |t.nodes|
    requires alternativeOf.Some? <==> IsTarget(t.expansions, r.target)
    ensures Grow(t, r, alternativeOf, redundant).branches != []
    ensures AllAttached(Grow(t, r, alternativeOf, redundant))
      <==> AllAttached(t) && (alternativeOf.None? ==> RootReaches(t, r.target))
  {
    var u := Grow(t, r, alternativeOf, redundant);
    GrownNodes(t, r, alternativeOf, redundant);
    GrownListed(t, r, alternativeOf, redundant, 0);
    forall m | 1 <= m <= |t.nodes| ensures RootReaches(u, m) <==> RootReaches(t, m)
    {
      BelowStays(t, r, alternativeOf, redundant, m);
    }
    forall k | 0 <= k < |t.expansions| ensures 1 <= t.expansions[k].target <= |t.nodes| { TargetInRange(t, k); }
    forall k: nat
      ensures Listed(u, k) <==> Listed(t, k) || (k == |t.expansions| && alternativeOf.None?)
      ensures k < |t.expansions| ==> u.expansions[k] == t.expansions[k]
    {
      GrownListed(t, r, alternativeOf, redundant, k);
    }
    hide TreeOk, Grow, IsTarget, Listed, RootReaches;
    AttachedListed(t);
    AttachedListed(u);
    if alternativeOf.None? && AllAttached(u) { assert Listed(u, |t.expansions|); }
    if AllAttached(u) {
      forall k: nat | Listed(t, k) ensures k < |t.expansions| && RootReaches(t, t.expansions[k].target) {
        ListedInRange(t, k);
        assert Listed(u, k);
      }
    }
    if AllAttached(t) && (alternativeOf.None? ==> RootReaches(t, r.target)) {
      forall k: nat | Listed(u, k) ensures k < |u.expansions| && RootReaches(u, u.expansions[k].target) {
        if Listed(t, k) { ListedInRange(t, k); }
      }
    }
  }

  lemma {:induction false} ListedInRange(t: Tree, k: nat)
    requires t.branches != [] && Listed(t, k)
    ensures k < |t.expansions|
  {
  }

  lemma {:induction false} AttachedListed(t: Tree)
    requires t.branches != []
    ensures AllAttached(t)
      <==> forall k: nat :: Listed(t, k) ==> k < |t.expansions| && RootReaches(t, t.expansions[k].target)
  {
    hide RootReaches, CurrentBranch;
    if AllAttached(t) {
      forall k: nat | Listed(t, k) ensures k < |t.expansions| && RootReaches(t, t.expansions[k].target) {}
    }
    if forall k: nat :: Listed(t, k) ==> k < |t.expansions| && RootReaches(t, t.expansions[k].target) {
      forall k | 0 <= k < |t.expansions| && t.expansions[k].id in CurrentBranch(t).expansions
        ensures RootReaches(t, t.expansions[k].target)
      {
        assert Listed(t, k);
      }
    }
  }

  lemma {:induction false} TargetInRange(t: Tree, k: nat)
    requires TreeOk(t) && k < |t.expansions|
    ensures 1 <= t.expansions[k].target <= |t.nodes|
  {
    ExpansionFacts(t, k);
    ChildFacts(t, k, t.expansions[k].children[0]);
  }

  /** What a caller can check before the action: a first expansion stands on a node the root reaches. */
  ghost predicate Standing(t: Tree, a: TreeAction)
    requires t.branches != []
  {
    a.AtomAction? || IsTarget(t.expansions, a.request.target) || RootReaches(t, a.request.target)
  }

  lemma {:induction false} SameReach(t: Tree, u: Tree)
    requires t.branches != [] && u.branches == t.branches && u.currentBranch == t.currentBranch
      && u.expansions == t.expansions
    requires |u.nodes| == |t.nodes| && forall i :: 0 <= i < |t.nodes| ==> u.nodes[i].parent == t.nodes[i].parent
    ensures AllAttached(u) <==> AllAttached(t)
  {
    assert CurrentBranch(u) == CurrentBranch(t);
    forall m: nat ensures Below(u, m, 1) <==> Below(t, m, 1) { SameBelow(t, u, m); }
    hide CurrentBranch, Below;
  }

  lemma {:induction false} SameBelow(t: Tree, u: Tree, m: nat)
    requires t.branches != [] && u.branches == t.branches && u.currentBranch == t.currentBranch
      && u.expansions == t.expansions
    requires |u.nodes| == |t.nodes| && forall i :: 0 <= i < |t.nodes| ==> u.nodes[i].parent == t.nodes[i].parent
    ensures Below(u, m, 1) <==> Below(t, m, 1)
    decreases m
  {
    assert CurrentBranch(u) == CurrentBranch(t);
    hide CurrentBranch;
    if 2 <= m <= |t.nodes| && t.nodes[m - 1].parent.Some? && t.nodes[m - 1].parent.value < m {
      SameBelow(t, u, t.nodes[m - 1].parent.value);
    }
  }

  lemma {:induction false} AtomKeepsReach(t: Tree, node: nat, claim: Claim)
    requires t.branches != [] && ApplyAction(t, AtomAction(node, claim)).Ok?
    ensures var u := ApplyAction(t, AtomAction(node, claim)).value;
      && u.branches == t.branches && u.currentBranch == t.currentBranch && u.expansions == t.expansions
      && |u.nodes| == |t.nodes| && forall i :: 0 <= i < |t.nodes| ==> u.nodes[i].parent == t.nodes[i].parent
  {
    hide FindNode, QuestionCompletes;
  }

  /** One action keeps the current branch attached exactly when it stands on a node the root reaches. */
  lemma {:induction false} AttachedStep(t: Tree, a: TreeAction)
    requires TreeOk(t) && t.branches != [] && ApplyAction(t, a).Ok?
    ensures ApplyAction(t, a).value.branches != []
    ensures AllAttached(ApplyAction(t, a).value) <==> AllAttached(t) && Standing(t, a)
  {
    ActionKeeps(t, a);
    BranchesExist(ApplyAction(t, a).value);
    if a.AtomAction? {
      AtomKeepsReach(t, a.node, a.claim);
      SameReach(t, ApplyAction(t, a).value);
      hide TreeOk, ApplyAction, AllAttached;
    } else {
      var alternativeOf, redundant := ActionGrows(t, a);
      var g := Grow(t, a.request, alternativeOf, redundant);
      GrownAttached(t, a.request, alternativeOf, redundant);
      GapReach(g, a.request.target);
      hide TreeOk, ApplyAction, AllAttached, Grow, RootReaches;
    }
  }

  lemma {:induction false} GapReach(t: Tree, target: nat)
    requires t.branches != []
    ensures
      var u := RegisterGap(t, RedundantAlternative, target, false);
      u.branches != [] && (AllAttached(u) <==> AllAttached(t))
  {
    SameReach(t, RegisterGap(t, RedundantAlternative, target, false));
    hide AllAttached;
  }

  /** The `k`-th action of the run stood on a node the root reached. */
  ghost predicate StandingAt(start: Tree, actions: seq<TreeAction>, k: nat)
    requires TreeOk(start) && k < |actions|
  {
    && Rebuild(start, actions[..k]).Ok?
    && var t := Rebuild(start, actions[..k]).value;
    && t.branches != [] && Standing(t, actions[k])
  }

  lemma {:induction false} AttachedRun(start: Tree, actions: seq<TreeAction>)
    requires TreeOk(start) && start.branches != [] && AllAttached(start) && Rebuild(start, actions).Ok?
    ensures Rebuild(start, actions).value.branches != []
    ensures AllAttached(Rebuild(start, actions).value)
      <==> forall k: nat :: k < |actions| ==> StandingAt(start, actions, k)
  {
    hide TreeOk, AllAttached, ApplyAction, Standing;
    if actions != [] {
      var n := |actions| - 1;
      AttachedRun(start, actions[..n]);
      AttachedStep(Rebuild(start, actions[..n]).value, actions[n]);
      forall k: nat | k < n ensures StandingAt(start, actions, k) <==> StandingAt(start, actions[..n], k) {
        assert actions[..n][..k] == actions[..k];
      }
      hide StandingAt, Rebuild;
      assert StandingAt(start, actions, n) <==> Standing(Rebuild(start, actions[..n]).value, actions[n]) by {
        StandingLast(start, actions, n);
      }
      EveryBefore(start, actions, n);
    }
  }

  lemma {:induction false} StandingLast(start: Tree, actions: seq<TreeAction>, n: nat)
    requires TreeOk(start) && n < |actions| && Rebuild(start, actions[..n]).Ok?
      && Rebuild(start, actions[..n]).value.branches != []
    ensures StandingAt(start, actions, n) <==> Standing(Rebuild(start, actions[..n]).value, actions[n])
  {
  }

  lemma {:induction false} EveryBefore(start: Tree, actions: seq<TreeAction>, n: nat)
    requires TreeOk(start) && |actions| == n + 1
    requires forall k: nat :: k < n ==> (StandingAt(start, actions, k) <==> StandingAt(start, actions[..n], k))
    ensures (forall k: nat :: k < |actions| ==> StandingAt(start, actions, k))
       <==> (forall k: nat :: k < n ==> StandingAt(start, actions[..n], k)) && StandingAt(start, actions, n)
  {
    hide StandingAt, TreeOk;
    if forall k: nat :: k < |actions| ==> StandingAt(start, actions, k) {
      forall k: nat | k < n ensures StandingAt(start, actions[..n], k) { assert StandingAt(start, actions, k); }
    }
  }

  /** In every run the reachable set ends as what the root reaches exactly when every first expansion stood,
      when it was made, on a node the root reached. */
  lemma {:induction false} ReachableExactlyInRuns(printer: Signatures.Printer, rootUnit: Option<UnitText>,
                                                  incomplete: bool, actions: seq<TreeAction>)
    requires TreeOk(Create(printer, rootUnit, incomplete))
      && Rebuild(Create(printer, rootUnit, incomplete), actions).Ok?
    ensures Rebuild(Create(printer, rootUnit, incomplete), actions).value.branches != []
    ensures var t := Rebuild(Create(printer, rootUnit, incomplete), actions).value;
      (forall m :: m in ReachableIds(t) <==> RootReaches(t, m))
      <==> (forall k: nat :: k < |actions| ==> StandingAt(Create(printer, rootUnit, incomplete), actions, k))
  {
    var t0 := Create(printer, rootUnit, incomplete);
    assert AllAttached(t0);
    AttachedRun(t0, actions);
    hide TreeOk, Create, ReachableIds, RootReaches, StandingAt, AllAttached;
    ReachableExactlyWhenAttached(Rebuild(t0, actions).value);
  }

  // --- an expansion under an alternative ---------------------------------------------------------

  function Plain(): UnitText {
    UnitText("", map[])
  }

  /** A one-child request, `-child` or `child`. */
  function OneChild(target: nat, negated: bool): Request {
    var x := Name(ChildName(0));
    Request(target, Plain(), if negated then Unary(Minus, x) else x, [Plain()])
  }

  lemma {:induction false} OneChildCloses(target: nat, negated: bool)
    ensures Closes(OneChild(target, negated))
  {
    hide ChildName;
    var r := OneChild(target, negated);
    var x := ChildName(0);
    assert InOrder(Name(x)) == [x];
    assert InOrder(r.expression) == [x];
    var units := Bind([x], r.childUnits);
    assert Bind([x][..0], r.childUnits[..0]) == map[];
    assert units == map[x := map[]];
    assert Dimension(Name(x), units) == Ok(map[]);
    assert Dimension(r.expression, units) == Ok(map[]);
  }

  lemma {:induction false} GrowOne(t: Tree, r: Request, alternativeOf: Option<nat>, redundant: bool)
    requires t.branches != [] && r.childUnits == [Plain()] && t.nodeSequence == |t.nodes| && t.branches[0].id == 1
      && t.currentBranch == Some(1)
    requires r.target <= t.nodeSequence
    ensures var u := Grow(t, r, alternativeOf, redundant);
      && u.nodes == Restatus(t.nodes + [Node(t.nodeSequence + 1, Open, ChildRole, Some(r.target), Some(Plain()))],
                             r.target, [t.nodeSequence + 1])
      && u.expansions
         == t.expansions + [Expansion(t.expansionSequence + 1, r.target, t.relationshipSequence + 1,
                                      [t.nodeSequence + 1], alternativeOf, redundant)]
      && u.branches != [] && u.branches[0].id == 1 && u.currentBranch == Some(1) && u.nodeSequence == |u.nodes|
      && u.expansionSequence == t.expansionSequence + 1
      && u.branches[0].expansions
         == t.branches[0].expansions + if alternativeOf.Some? then [] else [t.expansionSequence + 1]
  {
    assert r.childUnits[1..] == [];
    assert Materialise(t, r.childUnits, r.target) == RegisterNode(t, Plain(), r.target);
    assert Range(t.nodeSequence + 1, 1) == [t.nodeSequence + 1];
  }

  ghost predicate DetachedBy(printer: Signatures.Printer, t: Tree, actions: seq<TreeAction>) {
    && TreeOk(Create(printer, None, false)) && Rebuild(Create(printer, None, false), actions) == Ok(t)
    && t.branches != [] && 3 in ReachableIds(t) && !RootReaches(t, 3)
  }

  lemma {:induction false} FirstStep(printer: Signatures.Printer) returns (t: Tree)
    ensures ApplyAction(Create(printer, None, false), ExpandAction(OneChild(1, false))) == Ok(t)
    ensures TreeOk(t) && |t.nodes| == 2 && t.nodes[0].status == Expanded
    ensures t.expansions == [Expansion(1, 1, 1, [2], None, false)] && t.branches[0].expansions == [1]
    ensures t.relationships == [Relationship(1, 1, Plain(), Name(ChildName(0)), [2], [Plain()])]
  {
    var t0 := Create(printer, None, false);
    var r := OneChild(1, false);
    CreateOk(printer, None, false);
    OneChildCloses(1, false);
    GrowOne(t0, r, None, false);
    t := Grow(t0, r, None, false);
    ActionKeeps(t0, ExpandAction(r));
    assert Range(1 + 1, 1) == [2];
    hide Grow, Closes, TreeOk;
    assert FindNode(t0.nodes, 1) == Some(t0.nodes[0]);
    assert ExpandState(t0, r) == Ok(t);
  }

  lemma {:induction false} SecondStep(t1: Tree) returns (t: Tree)
    requires TreeOk(t1) && |t1.nodes| == 2 && t1.nodes[0].status == Expanded
    requires t1.expansions == [Expansion(1, 1, 1, [2], None, false)] && t1.branches[0].expansions == [1]
    requires t1.relationships == [Relationship(1, 1, Plain(), Name(ChildName(0)), [2], [Plain()])]
    ensures ApplyAction(t1, AlternativeAction(OneChild(1, true))) == Ok(t)
    ensures TreeOk(t) && |t.nodes| == 3 && t.nodes[2].status == Open
    ensures t.expansions == t1.expansions + [Expansion(2, 1, 2, [3], Some(1), false)] && |t.branches| > 0
      && t.branches[0].expansions == [1]
  {
    var r := OneChild(1, true);
    var e := t1.expansions[0];
    OneChildCloses(1, true);
    BranchesExist(t1);
    ExpansionsNumberedTwo(t1);
    GrowOne(t1, r, Some(1), false);
    t := Grow(t1, r, Some(1), false);
    ActionKeeps(t1, AlternativeAction(r));
    hide Grow, Closes, TreeOk, CurrentBranch;
    assert ExpansionsAt(t1.expansions[1..], 1) == [];
    assert ExpansionsAt(t1.expansions, 1) == [e];
    assert FindRelationship(t1.relationships, 1) == Some(t1.relationships[0]);
    assert !RedundantWith(t1, r, t1.relationships[0]);
    assert !RedundantExpansion(t1, r, e);
    assert !RedundantAmong(t1, r, [e]) && !AnyOrphan(t1, [e]);
    assert FindNode(t1.nodes, 1) == Some(t1.nodes[0]);
    assert Alternative(t1, r, e) == Ok(t);
    assert ProposeAlternative(t1, r) == Ok(t);
  }

  lemma {:induction false} ExpansionsNumberedTwo(t: Tree)
    requires TreeOk(t)
    ensures t.nodeSequence == |t.nodes| && t.expansionSequence == |t.expansions| == t.relationshipSequence
    ensures |t.branches| > 0 && t.branches[0].id == 1 && t.currentBranch == Some(1)
    ensures forall i :: 0 <= i < |t.nodes| ==> t.nodes[i].id == i + 1
  {
    hide PrunedOk, CurrentOk;
  }

  lemma {:induction false} ThirdStep(t2: Tree) returns (t: Tree)
    requires TreeOk(t2) && |t2.nodes| == 3 && t2.nodes[2].status == Open
    requires t2.expansions == [Expansion(1, 1, 1, [2], None, false), Expansion(2, 1, 2, [3], Some(1), false)]
    requires |t2.branches| > 0 && t2.branches[0].expansions == [1]
    ensures ApplyAction(t2, ExpandAction(OneChild(3, false))) == Ok(t)
    ensures TreeOk(t) && |t.branches| > 0 && t.branches[0].expansions == [1, 3]
    ensures t.expansions == t2.expansions + [Expansion(3, 3, 3, [4], None, false)]
  {
    var r := OneChild(3, false);
    OneChildCloses(3, false);
    BranchesExist(t2);
    ExpansionsNumberedTwo(t2);
    GrowOne(t2, r, None, false);
    t := Grow(t2, r, None, false);
    ActionKeeps(t2, ExpandAction(r));
    FindNodeExactly(t2.nodes, 0, 3);
    hide Grow, Closes, TreeOk, CurrentBranch, FindNode;
    assert ExpansionsAt(t2.expansions[1..][1..], 3) == [] && ExpansionsAt(t2.expansions[1..], 3) == [];
    assert ExpansionsAt(t2.expansions, 3) == [];
    assert ExpandState(t2, r) == Ok(t);
  }

  lemma {:induction false} ThirdIsDetached(t: Tree)
    requires TreeOk(t) && |t.branches| > 0 && t.branches[0].expansions == [1, 3]
    requires t.expansions == [Expansion(1, 1, 1, [2], None, false), Expansion(2, 1, 2, [3], Some(1), false),
                              Expansion(3, 3, 3, [4], None, false)]
    ensures 3 in ReachableIds(t) && !RootReaches(t, 3)
  {
    CurrentIsFirst(t);
    ReachableExactly(t, 3);
    assert Touches(t.expansions[2], CurrentBranch(t).expansions, 3);
    ListedIsActive(t, 0);
    ChildFacts(t, 1, 3);
    hide TreeOk, ActiveAt, ReachableIds;
  }

  /** Expand the root, compete with that expansion, then expand the child of the alternative: the last
      expansion lands on the current branch, whose reachable set then holds a node the root does not reach. */
  lemma {:induction false} ExpansionUnderAlternative(printer: Signatures.Printer)
    ensures exists t, actions :: DetachedBy(printer, t, actions)
  {
    hide ApplyAction, TreeOk, OneChild, RootReaches, ReachableIds, Create;
    CreateOk(printer, None, false);
    var t0 := Create(printer, None, false);
    var t1 := FirstStep(printer);
    var t2 := SecondStep(t1);
    var t3 := ThirdStep(t2);
    ThirdIsDetached(t3);
    BranchesExist(t0);
    BranchesExist(t1);
    BranchesExist(t2);
    var a1, a2, a3 := ExpandAction(OneChild(1, false)), AlternativeAction(OneChild(1, true)),
      ExpandAction(OneChild(3, false));
    RebuildOne(t0, [], t0, a1);
    RebuildOne(t0, [] + [a1], t1, a2);
    RebuildOne(t0, [] + [a1] + [a2], t2, a3);
    assert DetachedBy(printer, t3, [] + [a1] + [a2] + [a3]);
  }

  lemma {:induction false} RebuildOne(start: Tree, actions: seq<TreeAction>, t: Tree, a: TreeAction)
    requires TreeOk(start) && Rebuild(start, actions) == Ok(t) && t.branches != []
    ensures Rebuild(start, actions + [a]) == ApplyAction(t, a)
  {
    hide TreeOk, ApplyAction;
    assert (actions + [a])[..|actions|] == actions;
  }
}
