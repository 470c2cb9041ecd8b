/** The compiler from the current branch of the tree to one flat expression over its leaves. */
module Flatten {
  import opened Wrappers
  import opened Expressions
  import opened Trees
  import opened TreeShape
  import opened TreePruning
  import Text

  // --- substitution -----------------------------------------------------------------------------

  function Subst(e: Expr, x: string, r: Expr): Expr {
    match e
    case Name(id) => if id == x then r else e
    case Const(_) => e
    case Unary(sign, a) => Unary(sign, Subst(a, x, r))
    case Binary(op, a, b) => Binary(op, Subst(a, x, r), Subst(b, x, r))
  }

  lemma {:induction false} SubstNames(e: Expr, x: string, r: Expr)
    ensures Names(Subst(e, x, r)) == Names(e) - {x} + if x in Names(e) then Names(r) else {}
  {
    match e
    case Name(_) =>
    case Const(_) =>
    case Unary(_, a) => SubstNames(a, x, r);
    case Binary(_, a, b) => SubstNames(a, x, r); SubstNames(b, x, r);
  }

  lemma {:induction false} SubstConst(e: Expr, x: string, r: Expr)
    requires !r.Const?
    ensures Subst(e, x, r).Const? <==> e.Const?
    ensures e.Const? ==> Subst(e, x, r) == e
  {
  }

  /** Substituting a formula is evaluating with its value. */
  lemma {:induction false} SubstValue(e: Expr, x: string, r: Expr, values: Values, v: real)
    requires !r.Const? && Eval(r, values) == Ok(v)
    ensures Eval(Subst(e, x, r), values) == Eval(e, values[x := v])
  {
    match e
    case Name(_) =>
    case Const(_) =>
    case Unary(_, a) => SubstValue(a, x, r, values, v);
    case Binary(op, a, b) =>
      SubstValue(a, x, r, values, v);
      SubstValue(b, x, r, values, v);
      SubstConst(b, x, r);
  }

  /** Evaluation is strict: a substituted formula that is used must have a value. */
  lemma {:induction false} SubstNeeds(e: Expr, x: string, r: Expr, values: Values)
    requires Eval(Subst(e, x, r), values).Ok? && x in Names(e)
    ensures Eval(r, values).Ok?
  {
    match e
    case Name(_) =>
    case Const(_) =>
    case Unary(_, a) => SubstNeeds(a, x, r, values);
    case Binary(_, a, b) =>
      if x in Names(a) { SubstNeeds(a, x, r, values); } else { SubstNeeds(b, x, r, values); }
  }

  // --- the compiler -----------------------------------------------------------------------------

  datatype FlattenError = NotOneRoot | Cycle(node: nat) | MissingRelationship

  /** The expansion the current branch uses at a node; the last one wins. */
  function ActiveIn(es: seq<Expansion>, lineage: seq<nat>, node: nat): Option<Expansion> {
    if es == [] then None
    else
      var last := es[|es| - 1];
      if last.target == node && last.id in lineage && !last.redundant then Some(last)
      else ActiveIn(es[..|es| - 1], lineage, node)
  }

  function ActiveAt(t: Tree, node: nat): Option<Expansion>
    requires t.branches != []
  {
    ActiveIn(t.expansions, CurrentBranch(t).expansions, node)
  }

  function Targets(es: seq<Expansion>): set<nat> {
    set k | 0 <= k < |es| :: es[k].target
  }

  lemma {:induction false} ActiveIsTarget(es: seq<Expansion>, lineage: seq<nat>, node: nat)
    ensures ActiveIn(es, lineage, node).Some? ==>
      && ActiveIn(es, lineage, node).value in es && ActiveIn(es, lineage, node).value.target == node
      && ActiveIn(es, lineage, node).value.id in lineage && !ActiveIn(es, lineage, node).value.redundant
    ensures ActiveIn(es, lineage, node).Some? ==> node in Targets(es)
    ensures ActiveIn(es, lineage, node).None? ==>
      forall k :: 0 <= k < |es| && es[k].target == node && es[k].id in lineage ==> es[k].redundant
  {
    if es != [] {
      var before := es[..|es| - 1];
      ActiveIsTarget(before, lineage, node);
      assert es == before + [es[|es| - 1]];
      if node in Targets(before) {
        var k :| 0 <= k < |before| && before[k].target == node;
        assert es[k].target == node;
      }
    }
  }

  /** The formula of a node: its name where the branch does not expand it, else the relationship's
      expression with every placeholder replaced by the formula of the child it stands for. */
  function Render(t: Tree, visiting: set<nat>, node: nat): Result<Expr, FlattenError>
    requires t.branches != []
    decreases Targets(t.expansions) - visiting, 0, 0
  {
    if node in visiting then Err(Cycle(node))
    else
      match ActiveAt(t, node)
      case None => Ok(Name(NodeName(node)))
      case Some(e) =>
        match FindRelationship(t.relationships, e.relationship)
        case None => Err(MissingRelationship)
        case Some(relationship) =>
          ActiveIsTarget(t.expansions, CurrentBranch(t).expansions, node);
          assert node in Targets(t.expansions) - visiting && node !in Targets(t.expansions) - (visiting + {node});
          assert Targets(t.expansions) - (visiting + {node}) < Targets(t.expansions) - visiting;
          RenderChildren(t, visiting + {node}, relationship.children, 0, relationship.expression)
  }

  function RenderChildren(t: Tree, visiting: set<nat>, children: seq<nat>, i: nat, source: Expr)
    : Result<Expr, FlattenError>
    requires t.branches != [] && i <= |children|
    decreases Targets(t.expansions) - visiting, 1, |children| - i
  {
    if i == |children| then Ok(source)
    else
      match Render(t, visiting, children[i])
      case Err(e) => Err(e)
      case Ok(r) => RenderChildren(t, visiting, children, i + 1, Subst(source, ChildName(i), r))
  }

  function Roots(nodes: seq<Node>): seq<Node> {
    if nodes == [] then []
    else (if nodes[0].parent.None? then [nodes[0]] else []) + Roots(nodes[1..])
  }

  function ActiveExpression(t: Tree): Result<Expr, FlattenError>
    requires t.branches != []
  {
    var roots := Roots(t.nodes);
    if |roots| != 1 then Err(NotOneRoot) else Render(t, {}, roots[0].id)
  }

  /** The recursive compiler with its set of nodes being visited, rewriting each formula child by child. */
  class Renderer {
    const tree: Tree
    var visiting: set<nat>

    constructor (tree: Tree)
      ensures this.tree == tree && visiting == {}
    {
      this.tree := tree;
      visiting := {};
    }

    method RenderNode(node: nat) returns (r: Result<Expr, FlattenError>)
      requires tree.branches != []
      modifies this
      ensures r == Render(tree, old(visiting), node)
      ensures r.Ok? ==> visiting == old(visiting)
      decreases Targets(tree.expansions) - visiting
    {
      if node in visiting { return Err(Cycle(node)); }
      var expansion := ActiveAt(tree, node);
      if expansion.None? { return Ok(Name(NodeName(node))); }
      var found := FindRelationship(tree.relationships, expansion.value.relationship);
      if found.None? { return Err(MissingRelationship); }
      ActiveIsTarget(tree.expansions, CurrentBranch(tree).expansions, node);
      ghost var before := visiting;
      visiting := visiting + {node};
      assert node in Targets(tree.expansions) - before && node !in Targets(tree.expansions) - visiting;
      var children := found.value.children;
      var source := found.value.expression;
      for i := 0 to |children|
        invariant visiting == before + {node}
        invariant RenderChildren(tree, visiting, children, i, source)
               == RenderChildren(tree, visiting, children, 0, found.value.expression)
      {
        assert Targets(tree.expansions) - visiting < Targets(tree.expansions) - before;
        var child := RenderNode(children[i]);
        if child.Err? { return child; }
        source := Subst(source, ChildName(i), child.value);
      }
      visiting := visiting - {node};
      r := Ok(source);
    }
  }

  method CompileActive(t: Tree) returns (r: Result<Expr, FlattenError>)
    requires t.branches != []
    ensures r == ActiveExpression(t)
  {
    var roots := Roots(t.nodes);
    if |roots| != 1 { return Err(NotOneRoot); }
    var renderer := new Renderer(t);
    r := renderer.RenderNode(roots[0].id);
  }

  // --- names --------------------------------------------------------------------------------------

  lemma {:induction false} NamesApart(m: nat, n: nat)
    ensures NodeName(m) != ChildName(n)
    ensures m != n ==> NodeName(m) != NodeName(n) && ChildName(m) != ChildName(n)
  {
    assert NodeName(m)[0] == 'n' && ChildName(n)[0] == '_';
    if NodeName(m) == NodeName(n) {
      Text.PrefixInjective("n_", Text.Padded(m, 4), Text.Padded(n, 4));
      Text.PaddedInjective(m, n, 4);
    }
    if ChildName(m) == ChildName(n) {
      Text.PrefixInjective("_child_", Text.Decimal(m), Text.Decimal(n));
      Text.ParseDecimal(m);
      Text.ParseDecimal(n);
    }
  }

  /** The placeholders from `i` on. */
  function Placeholders(i: nat, n: nat): set<string> {
    set j: nat | i <= j < n :: ChildName(j)
  }

  function NodeNames(ids: set<nat>): set<string> {
    set m | m in ids :: NodeName(m)
  }

  /** A formula over exactly the placeholders of `n` children. */
  predicate CanonicalFormula(e: Expr, n: nat) {
    Names(e) == Placeholders(0, n)
  }

  /** The formula the current branch uses at a node names exactly the children of its expansion. */
  predicate CanonicalNode(t: Tree, node: nat)
    requires t.branches != []
  {
    ActiveAt(t, node).Some? ==>
      var r := FindRelationship(t.relationships, ActiveAt(t, node).value.relationship);
      r.Some? ==> CanonicalFormula(r.value.expression, |r.value.children|)
  }

  /** Every formula of the current branch is canonical; alternatives may be anything. */
  ghost predicate Canonical(t: Tree) {
    t.branches != [] && forall node: nat :: CanonicalNode(t, node)
  }

  lemma {:induction false} ActiveFacts(t: Tree, node: nat)
    requires TreeOk(t)
    ensures t.branches != []
    ensures ActiveAt(t, node).Some? <==> IsTarget(t.expansions, node)
    ensures ActiveAt(t, node).Some? ==>
      var e := ActiveAt(t, node).value;
      && 1 <= e.id <= |t.expansions| == |t.relationships| && t.expansions[e.id - 1] == e && e.target == node
      && FindRelationship(t.relationships, e.relationship) == Some(t.relationships[e.id - 1])
      && t.relationships[e.id - 1].children == e.children && |e.children| >= 1
  {
    BranchesExist(t);
    CurrentIsFirst(t);
    var line := t.branches[0].expansions;
    ActiveIsTarget(t.expansions, line, node);
    RelationshipsNumbered(t);
    if ActiveAt(t, node).Some? {
      var e := ActiveAt(t, node).value;
      var k :| 0 <= k < |t.expansions| && t.expansions[k] == e;
      ExpansionFacts(t, k);
      FindRelationshipExactly(t.relationships, 0, e.relationship);
      assert IsTarget(t.expansions, node);
    }
    hide ActiveIn, FindRelationship;
    if IsTarget(t.expansions, node) { TargetIsActive(t, node); }
  }

  lemma {:induction false} RelationshipsNumbered(t: Tree)
    requires TreeOk(t)
    ensures |t.relationships| == |t.expansions|
    ensures forall i :: 0 <= i < |t.relationships| ==> t.relationships[i].id == i + 1
  {
    hide NodesOk, BranchesOk, PrunedOk;
    forall i | 0 <= i < |t.relationships| ensures t.relationships[i].id == i + 1 {
      assert ExpansionOk(t.nodes, t.relationships, t.expansions, i);
    }
  }

  lemma {:induction false} ExpansionFacts(t: Tree, k: nat)
    requires TreeOk(t) && k < |t.expansions|
    ensures t.expansions[k].id == k + 1 == t.expansions[k].relationship && |t.relationships| == |t.expansions|
    ensures t.relationships[k].children == t.expansions[k].children && |t.expansions[k].children| >= 1
    ensures t.expansions[k].redundant ==> t.expansions[k].alternativeOf.Some?
  {
    hide NodesOk, BranchesOk, PrunedOk;
    assert ExpansionOk(t.nodes, t.relationships, t.expansions, k);
  }

  lemma {:induction false} TargetIsActive(t: Tree, node: nat)
    requires TreeOk(t) && IsTarget(t.expansions, node)
    ensures t.branches != [] && ActiveAt(t, node).Some?
  {
    BranchesExist(t);
    CurrentIsFirst(t);
    var line := t.branches[0].expansions;
    var i := CoveringPosition(t, node);
    ExpansionFacts(t, line[i] - 1);
    hide TreeOk, CurrentBranch, IsTarget;
    ActiveIsTarget(t.expansions, line, node);
  }

  lemma {:induction false} CoveringPosition(t: Tree, node: nat) returns (i: nat)
    requires TreeOk(t) && IsTarget(t.expansions, node)
    ensures |t.branches| > 0 && i < |t.branches[0].expansions|
    ensures var id := t.branches[0].expansions[i];
      1 <= id <= |t.expansions| && t.expansions[id - 1].target == node && t.expansions[id - 1].alternativeOf.None?
  {
    hide NodesOk, ExpansionsOk, PrunedOk;
    var line := t.branches[0].expansions;
    var k :| 0 <= k < |t.expansions| && t.expansions[k].target == node;
    assert Covers(line, t.expansions, node);
    i :| 0 <= i < |line| && Primary(t.expansions, line[i]) && TargetOf(t.expansions, line[i]) == node;
  }

  // --- the leaves below a node -----------------------------------------------------------------

  /** `m` is reached from `n` through active expansions. */
  predicate Below(t: Tree, m: nat, n: nat)
    requires t.branches != []
    decreases m
  {
    || m == n
    || (2 <= m <= |t.nodes|
        && match t.nodes[m - 1].parent
           case None => false
           case Some(p) => p < m && ActiveAt(t, p).Some? && m in ActiveAt(t, p).value.children && Below(t, p, n))
  }

  /** The node is on the way from `top` down the current branch. */
  predicate Reached(t: Tree, m: nat, top: nat)
    requires t.branches != []
  {
    1 <= m <= |t.nodes| && Below(t, m, top)
  }

  /** The unexpanded nodes reached from `n`. */
  function Leaves(t: Tree, n: nat): set<nat>
    requires t.branches != []
  {
    set m | 1 <= m <= |t.nodes| && Below(t, m, n) && ActiveAt(t, m).None?
  }

  lemma {:induction false} ActiveChild(t: Tree, n: nat, i: nat)
    requires TreeOk(t) && t.branches != [] && ActiveAt(t, n).Some? && i < |ActiveAt(t, n).value.children|
    ensures var c := ActiveAt(t, n).value.children[i];
      2 <= c <= |t.nodes| && n < c && t.nodes[c - 1].parent == Some(n)
  {
    ActiveFacts(t, n);
    hide ActiveAt, TreeOk;
    var e := ActiveAt(t, n).value;
    ChildFacts(t, e.id - 1, e.children[i]);
  }

  /** Whatever lies properly below `n` lies below one of its active children. */
  lemma {:induction false} BelowThroughChild(t: Tree, m: nat, n: nat)
    requires TreeOk(t) && t.branches != [] && m != n
    ensures Below(t, m, n) <==>
      && ActiveAt(t, n).Some?
      && exists i :: 0 <= i < |ActiveAt(t, n).value.children| && Below(t, m, ActiveAt(t, n).value.children[i])
    decreases m
  {
    hide TreeOk, ActiveAt;
    if Below(t, m, n) {
      var p := t.nodes[m - 1].parent.value;
      if p == n {
        var i :| 0 <= i < |ActiveAt(t, n).value.children| && ActiveAt(t, n).value.children[i] == m;
        assert Below(t, m, ActiveAt(t, n).value.children[i]);
      } else {
        BelowThroughChild(t, p, n);
        var i :| 0 <= i < |ActiveAt(t, n).value.children| && Below(t, p, ActiveAt(t, n).value.children[i]);
        assert Below(t, m, ActiveAt(t, n).value.children[i]);
      }
    }
    if && ActiveAt(t, n).Some?
       && exists i :: 0 <= i < |ActiveAt(t, n).value.children| && Below(t, m, ActiveAt(t, n).value.children[i])
    {
      var i :| 0 <= i < |ActiveAt(t, n).value.children| && Below(t, m, ActiveAt(t, n).value.children[i]);
      var c := ActiveAt(t, n).value.children[i];
      ActiveChild(t, n, i);
      if m != c {
        var p := t.nodes[m - 1].parent.value;
        BelowIsNotOlder(t, p, c);
        BelowThroughChild(t, p, n);
      }
    }
  }

  lemma {:induction false} BelowIsNotOlder(t: Tree, m: nat, n: nat)
    requires t.branches != [] && Below(t, m, n)
    ensures n <= m
    decreases m
  {
    if m != n { BelowIsNotOlder(t, t.nodes[m - 1].parent.value, n); }
  }

  function LeavesOf(t: Tree, children: seq<nat>, i: nat): set<nat>
    requires t.branches != [] && i <= |children|
    decreases |children| - i
  {
    if i == |children| then {} else Leaves(t, children[i]) + LeavesOf(t, children, i + 1)
  }

  lemma {:induction false} LeavesOfExactly(t: Tree, children: seq<nat>, i: nat, m: nat)
    requires t.branches != [] && i <= |children|
    ensures m in LeavesOf(t, children, i) <==> exists j :: i <= j < |children| && m in Leaves(t, children[j])
    decreases |children| - i
  {
    hide Leaves;
    if i < |children| { LeavesOfExactly(t, children, i + 1, m); }
  }

  lemma {:induction false} LeavesSplit(t: Tree, n: nat)
    requires TreeOk(t) && t.branches != [] && 1 <= n <= |t.nodes|
    ensures ActiveAt(t, n).None? ==> Leaves(t, n) == {n}
    ensures ActiveAt(t, n).Some? ==> Leaves(t, n) == LeavesOf(t, ActiveAt(t, n).value.children, 0)
  {
    hide TreeOk, ActiveAt, Below;
    if ActiveAt(t, n).None? {
      forall m | m in Leaves(t, n) ensures m == n {
        if m != n { BelowThroughChild(t, m, n); }
      }
      BelowSelf(t, n);
    } else {
      var children := ActiveAt(t, n).value.children;
      forall m ensures m in Leaves(t, n) <==> m in LeavesOf(t, children, 0) {
        if m != n { BelowThroughChild(t, m, n); }
        LeavesOfExactly(t, children, 0, m);
      }
    }
  }

  lemma {:induction false} BelowSelf(t: Tree, n: nat)
    requires t.branches != []
    ensures Below(t, n, n)
  {
  }

  // --- compiling succeeds, and mentions exactly the leaves ------------------------------------------

  /** Nothing on the way down is as new as `n`. */
  predicate AllOlder(visiting: set<nat>, n: nat) {
    forall v :: v in visiting ==> v < n
  }

  lemma {:induction false} PlaceholdersSplit(i: nat, n: nat)
    requires i < n
    ensures Placeholders(i, n) == Placeholders(i + 1, n) + {ChildName(i)}
    ensures ChildName(i) !in Placeholders(i + 1, n)
  {
    forall j: nat | i < j < n ensures ChildName(j) != ChildName(i) { NamesApart(j, i); }
    hide ChildName;
    forall x | x in Placeholders(i, n) ensures x in Placeholders(i + 1, n) + {ChildName(i)} {
      var j: nat :| i <= j < n && x == ChildName(j);
      if j != i { assert ChildName(j) in Placeholders(i + 1, n); }
    }
  }

  lemma {:induction false} NodeNamesApart(ids: set<nat>, i: nat, n: nat)
    ensures NodeNames(ids) * Placeholders(i, n) == {}
  {
    forall m: nat, j: nat ensures NodeName(m) != ChildName(j) { NamesApart(m, j); }
    hide NodeName, ChildName;
  }

  lemma {:induction false} NodeNamesUnion(a: set<nat>, b: set<nat>)
    ensures NodeNames(a + b) == NodeNames(a) + NodeNames(b)
  {
    hide NodeName;
    forall x | x in NodeNames(a) + NodeNames(b) ensures x in NodeNames(a + b) {
      if x in NodeNames(a) {
        var m :| m in a && x == NodeName(m);
        assert m in a + b;
      } else {
        var m :| m in b && x == NodeName(m);
        assert m in a + b;
      }
    }
  }

  lemma {:induction false} CanonicalAt(t: Tree, n: nat)
    requires TreeOk(t) && Canonical(t) && t.branches != [] && ActiveAt(t, n).Some?
    ensures var e := ActiveAt(t, n).value; var r := FindRelationship(t.relationships, e.relationship);
      && r.Some? && r.value.children == e.children && |e.children| >= 1
      && Names(r.value.expression) == Placeholders(0, |e.children|)
  {
    ActiveFacts(t, n);
    assert CanonicalNode(t, n);
    hide ActiveAt, TreeOk;
  }

  /** Compiling from a node meets no cycle and mentions exactly the unexpanded nodes below it. */
  lemma {:induction false} RenderOk(t: Tree, visiting: set<nat>, n: nat)
    requires TreeOk(t) && Canonical(t) && t.branches != [] && 1 <= n <= |t.nodes| && AllOlder(visiting, n)
    ensures var r := Render(t, visiting, n);
      r.Ok? && !r.value.Const? && Names(r.value) == NodeNames(Leaves(t, n))
    decreases |t.nodes| - n, 1, 0
  {
    hide TreeOk, Canonical, ActiveAt, Leaves, FindRelationship, RenderChildren;
    LeavesSplit(t, n);
    if ActiveAt(t, n).None? {
      assert NodeNames({n}) == {NodeName(n)};
    } else {
      CanonicalAt(t, n);
      var e := ActiveAt(t, n).value;
      var source := FindRelationship(t.relationships, e.relationship).value.expression;
      assert NodeNames({}) == {};
      SourceNotConst(source, |e.children|);
      RenderChildrenOk(t, visiting + {n}, n, 0, source, {});
    }
  }

  lemma {:induction false} SourceNotConst(e: Expr, n: nat)
    requires n >= 1 && Names(e) == Placeholders(0, n)
    ensures !e.Const?
  {
    assert ChildName(0) in Placeholders(0, n);
  }

  lemma {:induction false} RenderChildrenOk(t: Tree, visiting: set<nat>, n: nat, i: nat, source: Expr, done: set<nat>)
    requires TreeOk(t) && Canonical(t) && t.branches != [] && 1 <= n <= |t.nodes| && ActiveAt(t, n).Some?
    requires AllOlder(visiting, n + 1) && i <= |ActiveAt(t, n).value.children| && !source.Const?
    requires Names(source) == NodeNames(done) + Placeholders(i, |ActiveAt(t, n).value.children|)
    ensures var children := ActiveAt(t, n).value.children; var r := RenderChildren(t, visiting, children, i, source);
      r.Ok? && !r.value.Const? && Names(r.value) == NodeNames(done + LeavesOf(t, children, i))
    decreases |t.nodes| - n, 0, |ActiveAt(t, n).value.children| - i
  {
    hide TreeOk, Canonical, ActiveAt, Leaves, Render, Placeholders, NodeNames, AllOlder;
    var children := ActiveAt(t, n).value.children;
    if i == |children| {
      assert Placeholders(i, i) == {} by { NoPlaceholders(i); }
      assert done + LeavesOf(t, children, i) == done;
    } else {
      var c := children[i];
      ActiveChild(t, n, i);
      OlderStill(visiting, n + 1, c);
      RenderOk(t, visiting, c);
      var r := Render(t, visiting, c).value;
      var next := Subst(source, ChildName(i), r);
      SubstNames(source, ChildName(i), r);
      SubstConst(source, ChildName(i), r);
      PlaceholdersSplit(i, |children|);
      NodeNamesApart(done, i, |children|);
      NodeNamesUnion(done, Leaves(t, c));
      assert Names(next) == NodeNames(done + Leaves(t, c)) + Placeholders(i + 1, |children|);
      RenderChildrenOk(t, visiting, n, i + 1, next, done + Leaves(t, c));
      assert done + Leaves(t, c) + LeavesOf(t, children, i + 1) == done + LeavesOf(t, children, i);
    }
  }

  lemma {:induction false} NoPlaceholders(i: nat)
    ensures Placeholders(i, i) == {}
  {
  }

  lemma {:induction false} OlderStill(visiting: set<nat>, m: nat, n: nat)
    requires AllOlder(visiting, m) && m <= n
    ensures AllOlder(visiting, n)
  {
  }
}
