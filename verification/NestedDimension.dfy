/** The flat expression has the dimension of the nested expansions, over any units of its leaves. */
module NestedDimensions {
  import opened Wrappers
  import opened Expressions
  import opened Units
  import opened Dimensions
  import opened Trees
  import opened TreeShape
  import opened Flatten
  import opened FlattenMeaning
  import opened FlattenUnits
  import opened FlattenDimension

  /** Bottom-up dimension of the nested expansions, every placeholder bound to the child it names. */
  function NestedDimension(t: Tree, units: UnitEnv, n: nat): Result<CompoundUnit, DimensionError>
    requires TreeOk(t) && t.branches != [] && 1 <= n <= |t.nodes|
    decreases |t.nodes| - n, 1, 0
  {
    match ActiveAt(t, n)
    case None => if NodeName(n) in units then Ok(units[NodeName(n)]) else Err(UnknownVariable(NodeName(n)))
    case Some(e) =>
      match ChildDimensions(t, units, n, 0)
      case Err(x) => Err(x)
      case Ok(bound) =>
        match FindRelationship(t.relationships, e.relationship)
        case None => Err(UnknownVariable(""))
        case Some(r) => Dimension(r.expression, bound)
  }

  /** The dimensions of the children from `i` on, by placeholder. */
  function ChildDimensions(t: Tree, units: UnitEnv, n: nat, i: nat): Result<UnitEnv, DimensionError>
    requires TreeOk(t) && t.branches != [] && 1 <= n <= |t.nodes| && ActiveAt(t, n).Some?
    requires i <= |ActiveAt(t, n).value.children|
    decreases |t.nodes| - n, 0, |ActiveAt(t, n).value.children| - i
  {
    var children := ActiveAt(t, n).value.children;
    if i == |children| then Ok(map[])
    else
      ActiveChild(t, n, i);
      match NestedDimension(t, units, children[i])
      case Err(x) => Err(x)
      case Ok(d) =>
        match ChildDimensions(t, units, n, i + 1)
        case Err(x) => Err(x)
        case Ok(bound) => Ok(bound[ChildName(i) := d])
  }

  lemma {:induction false} ChildDimensionsKeys(t: Tree, units: UnitEnv, n: nat, i: nat)
    requires TreeOk(t) && t.branches != [] && 1 <= n <= |t.nodes| && ActiveAt(t, n).Some?
    requires i <= |ActiveAt(t, n).value.children| && ChildDimensions(t, units, n, i).Ok?
    ensures ChildDimensions(t, units, n, i).value.Keys == Placeholders(i, |ActiveAt(t, n).value.children|)
    decreases |ActiveAt(t, n).value.children| - i
  {
    hide TreeOk, ActiveAt, NestedDimension, Placeholders;
    if i == |ActiveAt(t, n).value.children| {
      NoPlaceholders(i);
    } else {
      ChildDimensionsKeys(t, units, n, i + 1);
      PlaceholdersSplit(i, |ActiveAt(t, n).value.children|);
    }
  }

  /** Checking is strict: a substituted formula that is used must check. */
  lemma {:induction false} SubstNeedsDimension(e: Expr, x: string, r: Expr, units: UnitEnv)
    requires Dimension(Subst(e, x, r), units).Ok? && x in Names(e)
    ensures Dimension(r, units).Ok?
  {
    hide DimensionOfOp;
    match e
    case Name(_) =>
    case Const(_) =>
    case Unary(_, a) => SubstNeedsDimension(a, x, r, units);
    case Binary(_, a, b) =>
      if x in Names(a) { SubstNeedsDimension(a, x, r, units); } else { SubstNeedsDimension(b, x, r, units); }
  }

  /** A formula over node names does not notice placeholders. */
  lemma {:induction false} PlaceholdersUnseen(r: Expr, units: UnitEnv, bound: UnitEnv, ids: set<nat>, i: nat, n: nat)
    requires Names(r) == NodeNames(ids) && bound.Keys <= Placeholders(i, n)
    ensures Dimension(r, units + bound) == Dimension(r, units)
  {
    NodeNamesApart(ids, i, n);
    forall x | x in Names(r) ensures x !in bound { assert x !in NodeNames(ids) * Placeholders(i, n); }
    DimensionAgrees(r, units + bound, units);
  }

  lemma {:induction false} BoundOne(units: UnitEnv, bound: UnitEnv, x: string, d: CompoundUnit)
    ensures (units + bound)[x := d] == units + bound[x := d]
  {
  }

  /** The flat formula of a node checks exactly when the nested expansions do, with the same unit. */
  lemma {:induction false} RenderDimension(t: Tree, visiting: set<nat>, n: nat, units: UnitEnv, d: CompoundUnit)
    requires TreeOk(t) && Canonical(t) && t.branches != [] && 1 <= n <= |t.nodes| && AllOlder(visiting, n)
    ensures Render(t, visiting, n).Ok?
    ensures Dimension(Render(t, visiting, n).value, units) == Ok(d) <==> NestedDimension(t, units, n) == Ok(d)
    decreases |t.nodes| - n, 1, 0
  {
    hide TreeOk, Canonical, ActiveAt, Leaves, FindRelationship, RenderChildren, ChildDimensions, AllOlder;
    RenderOk(t, visiting, n);
    if ActiveAt(t, n).Some? {
      CanonicalAt(t, n);
      var e := ActiveAt(t, n).value;
      var source := FindRelationship(t.relationships, e.relationship).value.expression;
      EmptyNames();
      SourceNotConst(source, |e.children|);
      StillOlder(visiting, n);
      RenderChildrenDimension(t, visiting + {n}, n, 0, source, {}, units, d);
      if ChildDimensions(t, units, n, 0).Ok? {
        var bound := ChildDimensions(t, units, n, 0).value;
        ChildDimensionsKeys(t, units, n, 0);
        DimensionAgrees(source, units + bound, bound);
      }
    }
  }

  lemma {:induction false} RenderChildrenDimension(t: Tree, visiting: set<nat>, n: nat, i: nat, source: Expr,
                                                   done: set<nat>, units: UnitEnv, d: CompoundUnit)
    requires TreeOk(t) && Canonical(t) && t.branches != [] && 1 <= n <= |t.nodes| && ActiveAt(t, n).Some?
    requires AllOlder(visiting, n + 1) && i <= |ActiveAt(t, n).value.children| && !source.Const?
    requires Names(source) == NodeNames(done) + Placeholders(i, |ActiveAt(t, n).value.children|)
    ensures
      var r := RenderChildren(t, visiting, ActiveAt(t, n).value.children, i, source);
      && r.Ok?
      && (Dimension(r.value, units) == Ok(d)
          <==> ChildDimensions(t, units, n, i).Ok?
               && Dimension(source, units + ChildDimensions(t, units, n, i).value) == Ok(d))
    decreases |t.nodes| - n, 0, |ActiveAt(t, n).value.children| - i
  {
    hide TreeOk, Canonical, ActiveAt, Leaves, Render, Placeholders, NodeNames, AllOlder, NestedDimension, Dimension;
    var children := ActiveAt(t, n).value.children;
    if i == |children| {
      assert units + map[] == units;
    } else {
      var c := children[i];
      ActiveChild(t, n, i);
      OlderStill(visiting, n + 1, c);
      RenderOk(t, visiting, c);
      var r := Render(t, visiting, c).value;
      var next := Subst(source, ChildName(i), r);
      SubstNames(source, ChildName(i), r);
      SubstConst(source, ChildName(i), r);
      PlaceholdersSplit(i, |children|);
      NodeNamesApart(done, i, |children|);
      NodeNamesUnion(done, Leaves(t, c));
      assert Names(next) == NodeNames(done + Leaves(t, c)) + Placeholders(i + 1, |children|);
      RenderChildrenDimension(t, visiting, n, i + 1, next, done + Leaves(t, c), units, d);
      if ChildDimensions(t, units, n, i + 1).Ok? {
        var bound := ChildDimensions(t, units, n, i + 1).value;
        ChildDimensionsKeys(t, units, n, i + 1);
        PlaceholdersUnseen(r, units, bound, Leaves(t, c), i + 1, |children|);
        ChildDimension(t, visiting, c, units);
        if Dimension(r, units).Ok? {
          var own := Dimension(r, units).value;
          SubstDimension(source, ChildName(i), r, units + bound, own);
          BoundOne(units, bound, ChildName(i), own);
        } else if Dimension(next, units + bound).Ok? {
          SubstNeedsDimension(source, ChildName(i), r, units + bound);
        }
      }
    }
  }

  lemma {:induction false} ChildDimension(t: Tree, visiting: set<nat>, c: nat, units: UnitEnv)
    requires TreeOk(t) && Canonical(t) && t.branches != [] && 1 <= c <= |t.nodes| && AllOlder(visiting, c)
    ensures Render(t, visiting, c).Ok?
    ensures
      var r := Dimension(Render(t, visiting, c).value, units);
      && (r.Ok? <==> NestedDimension(t, units, c).Ok?) && (r.Ok? ==> r == Ok(NestedDimension(t, units, c).value))
    decreases |t.nodes| - c, 2, 0
  {
    hide TreeOk, Canonical, ActiveAt, Render, NestedDimension, Dimension, AllOlder;
    RenderOk(t, visiting, c);
    var r := Dimension(Render(t, visiting, c).value, units);
    if r.Ok? { RenderDimension(t, visiting, c, units, r.value); }
    if NestedDimension(t, units, c).Ok? { RenderDimension(t, visiting, c, units, NestedDimension(t, units, c).value); }
  }

  /** Whatever units the leaves are given, the flat expression checks exactly when the nested expansions
      do, bottom-up and each bound by index, and has the same unit. */
  lemma {:induction false} FlatteningKeepsNestedDimension(t: Tree, units: UnitEnv, d: CompoundUnit)
    requires TreeOk(t) && Canonical(t)
    ensures t.branches != [] && |t.nodes| >= 1 && ActiveExpression(t).Ok?
    ensures Dimension(ActiveExpression(t).value, units) == Ok(d) <==> NestedDimension(t, units, 1) == Ok(d)
  {
    hide TreeOk, Canonical, Render, NestedDimension, Dimension, Roots;
    BranchesExist(t);
    OneRoot(t);
    RenderOk(t, {}, 1);
    RenderDimension(t, {}, 1, units, d);
  }
}
