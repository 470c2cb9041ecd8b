/** The flat expression means what the tree means. */
module FlattenMeaning {
  import opened Wrappers
  import opened Expressions
  import opened Trees
  import opened TreeShape
  import opened TreePruning
  import opened Flatten

  /** Evaluating one expansion on the values of its children, bound to their placeholders. */
  function EvaluateExpansion(t: Tree, e: Expansion, bound: Values): Result<real, EvalError> {
    match FindRelationship(t.relationships, e.relationship)
    case None => Err(Missing(""))
    case Some(r) => Eval(r.expression, bound)
  }

  /** Bottom-up evaluation of the nested expansions from the values of the leaves. */
  function Value(t: Tree, leaf: Values, n: nat): Result<real, EvalError>
    requires TreeOk(t) && t.branches != [] && 1 <= n <= |t.nodes|
    decreases |t.nodes| - n, 1, 0
  {
    match ActiveAt(t, n)
    case None => if NodeName(n) in leaf then Ok(leaf[NodeName(n)]) else Err(Missing(NodeName(n)))
    case Some(e) =>
      match Bindings(t, leaf, n, 0)
      case Err(x) => Err(x)
      case Ok(bound) => EvaluateExpansion(t, e, bound)
  }

  /** The values of the children from `i` on, by placeholder. */
  function Bindings(t: Tree, leaf: Values, n: nat, i: nat): Result<Values, EvalError>
    requires TreeOk(t) && t.branches != [] && 1 <= n <= |t.nodes| && ActiveAt(t, n).Some?
    requires i <= |ActiveAt(t, n).value.children|
    decreases |t.nodes| - n, 0, |ActiveAt(t, n).value.children| - i
  {
    var children := ActiveAt(t, n).value.children;
    if i == |children| then Ok(map[])
    else
      ActiveChild(t, n, i);
      match Value(t, leaf, children[i])
      case Err(x) => Err(x)
      case Ok(v) =>
        match Bindings(t, leaf, n, i + 1)
        case Err(x) => Err(x)
        case Ok(bound) => Ok(bound[ChildName(i) := v])
  }

  lemma {:induction false} BindingsKeys(t: Tree, leaf: Values, n: nat, i: nat)
    requires TreeOk(t) && t.branches != [] && 1 <= n <= |t.nodes| && ActiveAt(t, n).Some?
    requires i <= |ActiveAt(t, n).value.children| && Bindings(t, leaf, n, i).Ok?
    ensures Bindings(t, leaf, n, i).value.Keys == Placeholders(i, |ActiveAt(t, n).value.children|)
    decreases |ActiveAt(t, n).value.children| - i
  {
    hide TreeOk, ActiveAt, Value, Placeholders;
    if i == |ActiveAt(t, n).value.children| {
      NoPlaceholders(i);
    } else {
      BindingsKeys(t, leaf, n, i + 1);
      PlaceholdersSplit(i, |ActiveAt(t, n).value.children|);
    }
  }

  /** A formula over node names does not notice placeholders. */
  lemma {:induction false} OverridesUnseen(r: Expr, leaf: Values, bound: Values, ids: set<nat>, i: nat, n: nat)
    requires Names(r) == NodeNames(ids) && bound.Keys <= Placeholders(i, n)
    ensures Eval(r, leaf + bound) == Eval(r, leaf)
  {
    NodeNamesApart(ids, i, n);
    forall x | x in Names(r) ensures x !in bound { assert x !in NodeNames(ids) * Placeholders(i, n); }
    EvalCongruence(r, leaf + bound, leaf);
  }

  lemma {:induction false} OverrideOne(leaf: Values, bound: Values, x: string, v: real)
    ensures (leaf + bound)[x := v] == leaf + bound[x := v]
  {
  }

  /** The flat formula of a node has a value exactly when bottom-up evaluation has one, and it is the same. */
  lemma {:induction false} RenderMeaning(t: Tree, visiting: set<nat>, n: nat, leaf: Values, v: real)
    requires TreeOk(t) && Canonical(t) && t.branches != [] && 1 <= n <= |t.nodes| && AllOlder(visiting, n)
    ensures Render(t, visiting, n).Ok?
    ensures Eval(Render(t, visiting, n).value, leaf) == Ok(v) <==> Value(t, leaf, n) == Ok(v)
    decreases |t.nodes| - n, 1, 0
  {
    hide TreeOk, Canonical, ActiveAt, Leaves, FindRelationship, RenderChildren, Bindings, AllOlder;
    RenderOk(t, visiting, n);
    if ActiveAt(t, n).Some? {
      CanonicalAt(t, n);
      var e := ActiveAt(t, n).value;
      var source := FindRelationship(t.relationships, e.relationship).value.expression;
      EmptyNames();
      SourceNotConst(source, |e.children|);
      StillOlder(visiting, n);
      RenderChildrenMeaning(t, visiting + {n}, n, 0, source, {}, leaf, v);
      if Bindings(t, leaf, n, 0).Ok? {
        var bound := Bindings(t, leaf, n, 0).value;
        BindingsKeys(t, leaf, n, 0);
        BoundCongruence(source, leaf, bound);
      }
    }
  }

  lemma {:induction false} EmptyNames()
    ensures NodeNames({}) == {}
  {
  }

  lemma {:induction false} StillOlder(visiting: set<nat>, n: nat)
    requires AllOlder(visiting, n)
    ensures AllOlder(visiting + {n}, n + 1)
  {
  }

  lemma {:induction false} BoundCongruence(e: Expr, leaf: Values, bound: Values)
    requires Names(e) <= bound.Keys
    ensures Eval(e, leaf + bound) == Eval(e, bound)
  {
    EvalCongruence(e, leaf + bound, bound);
  }

  lemma {:induction false} RenderChildrenMeaning(t: Tree, visiting: set<nat>, n: nat, i: nat, source: Expr,
                                                 done: set<nat>, leaf: Values, v: real)
    requires TreeOk(t) && Canonical(t) && t.branches != [] && 1 <= n <= |t.nodes| && ActiveAt(t, n).Some?
    requires AllOlder(visiting, n + 1) && i <= |ActiveAt(t, n).value.children| && !source.Const?
    requires Names(source) == NodeNames(done) + Placeholders(i, |ActiveAt(t, n).value.children|)
    ensures var r := RenderChildren(t, visiting, ActiveAt(t, n).value.children, i, source);
      && r.Ok?
      && (Eval(r.value, leaf) == Ok(v)
          <==> Bindings(t, leaf, n, i).Ok? && Eval(source, leaf + Bindings(t, leaf, n, i).value) == Ok(v))
    decreases |t.nodes| - n, 0, |ActiveAt(t, n).value.children| - i
  {
    hide TreeOk, Canonical, ActiveAt, Leaves, Render, Placeholders, NodeNames, AllOlder, Value, Eval;
    var children := ActiveAt(t, n).value.children;
    if i == |children| {
      assert leaf + map[] == leaf;
    } else {
      var c := children[i];
      ActiveChild(t, n, i);
      OlderStill(visiting, n + 1, c);
      RenderOk(t, visiting, c);
      var r := Render(t, visiting, c).value;
      var next := Subst(source, ChildName(i), r);
      SubstNames(source, ChildName(i), r);
      SubstConst(source, ChildName(i), r);
      PlaceholdersSplit(i, |children|);
      NodeNamesApart(done, i, |children|);
      NodeNamesUnion(done, Leaves(t, c));
      assert Names(next) == NodeNames(done + Leaves(t, c)) + Placeholders(i + 1, |children|);
      RenderChildrenMeaning(t, visiting, n, i + 1, next, done + Leaves(t, c), leaf, v);
      if Bindings(t, leaf, n, i + 1).Ok? {
        var bound := Bindings(t, leaf, n, i + 1).value;
        BindingsKeys(t, leaf, n, i + 1);
        OverridesUnseen(r, leaf, bound, Leaves(t, c), i + 1, |children|);
        ChildValue(t, visiting, c, leaf);
        if Eval(r, leaf).Ok? {
          var x := Eval(r, leaf).value;
          SubstValue(source, ChildName(i), r, leaf + bound, x);
          OverrideOne(leaf, bound, ChildName(i), x);
        } else if Eval(next, leaf + bound).Ok? {
          SubstNeeds(source, ChildName(i), r, leaf + bound);
        }
      }
    }
  }

  lemma {:induction false} ChildValue(t: Tree, visiting: set<nat>, c: nat, leaf: Values)
    requires TreeOk(t) && Canonical(t) && t.branches != [] && 1 <= c <= |t.nodes| && AllOlder(visiting, c)
    ensures Render(t, visiting, c).Ok?
    ensures var r := Eval(Render(t, visiting, c).value, leaf);
      && (r.Ok? <==> Value(t, leaf, c).Ok?) && (r.Ok? ==> r == Ok(Value(t, leaf, c).value))
    decreases |t.nodes| - c, 2, 0
  {
    hide TreeOk, Canonical, ActiveAt, Render, Value, Eval, AllOlder;
    RenderOk(t, visiting, c);
    var r := Eval(Render(t, visiting, c).value, leaf);
    if r.Ok? { RenderMeaning(t, visiting, c, leaf, r.value); }
    if Value(t, leaf, c).Ok? { RenderMeaning(t, visiting, c, leaf, Value(t, leaf, c).value); }
  }

  lemma {:induction false} OneRoot(t: Tree)
    requires TreeOk(t)
    ensures |t.nodes| >= 1 && Roots(t.nodes) == [t.nodes[0]] && t.nodes[0].id == 1
  {
    NodesNumbered(t);
    OneParentless(t);
    NoOtherRoots(t.nodes[1..]);
  }

  lemma {:induction false} NoOtherRoots(nodes: seq<Node>)
    requires forall i :: 0 <= i < |nodes| ==> nodes[i].parent.Some?
    ensures Roots(nodes) == []
  {
    if nodes != [] { NoOtherRoots(nodes[1..]); }
  }

  /** In every well-shaped tree with canonical formulas the current branch compiles: no cycle is ever
      met, the variables are exactly the unexpanded nodes the root reaches, and the flat expression
      evaluates to a value exactly when the nested expansions do, to the same one. */
  lemma {:induction false} FlatteningPreservesMeaning(t: Tree, leaf: Values, v: real)
    requires TreeOk(t) && Canonical(t)
    ensures t.branches != [] && |t.nodes| >= 1 && ActiveExpression(t).Ok?
    ensures Names(ActiveExpression(t).value) == NodeNames(Leaves(t, 1))
    ensures Eval(ActiveExpression(t).value, leaf) == Ok(v) <==> Value(t, leaf, 1) == Ok(v)
  {
    hide TreeOk, Canonical, Render, Value, Eval, Leaves, Roots;
    BranchesExist(t);
    OneRoot(t);
    RenderOk(t, {}, 1);
    RenderMeaning(t, {}, 1, leaf, v);
  }
}
