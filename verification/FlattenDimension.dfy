/** When the flat expression has the dimension of the node it is compiled from. */
module FlattenDimension {
  import opened Wrappers
  import opened Reals
  import opened Expressions
  import opened Units
  import opened Dimensions
  import opened Trees
  import Signatures
  import opened TreeShape
  import opened TreePruning
  import opened Flatten
  import opened FlattenMeaning
  import opened FlattenUnits
  import opened TreeActions
  import opened TreeRefinement
  import opened TreeReach
  import opened TreeFormulas

  // --- the formula of a node stands alone ------------------------------------------------------

  /** Outside the nodes being visited, which are all older, the compiler's set does not matter. */
  lemma {:induction false} RenderIgnoresVisiting(t: Tree, v: set<nat>, w: set<nat>, n: nat)
    requires TreeOk(t) && t.branches != [] && 1 <= n <= |t.nodes| && AllOlder(v, n) && AllOlder(w, n)
    ensures Render(t, v, n) == Render(t, w, n)
    decreases |t.nodes| - n, 1, 0
  {
    ActiveFacts(t, n);
    hide TreeOk, ActiveAt, FindRelationship, RenderChildren, AllOlder;
    assert n !in v && n !in w by { NotOlder(v, n); NotOlder(w, n); }
    if ActiveAt(t, n).Some? {
      StillOlder(v, n);
      StillOlder(w, n);
      var r := FindRelationship(t.relationships, ActiveAt(t, n).value.relationship).value;
      ChildrenIgnoreVisiting(t, v + {n}, w + {n}, n, 0, r.expression);
    }
  }

  lemma {:induction false} NotOlder(v: set<nat>, n: nat)
    requires AllOlder(v, n)
    ensures n !in v
  {
  }

  lemma {:induction false} ChildrenIgnoreVisiting(t: Tree, v: set<nat>, w: set<nat>, n: nat, i: nat, source: Expr)
    requires TreeOk(t) && t.branches != [] && 1 <= n <= |t.nodes| && ActiveAt(t, n).Some?
    requires AllOlder(v, n + 1) && AllOlder(w, n + 1) && i <= |ActiveAt(t, n).value.children|
    ensures RenderChildren(t, v, ActiveAt(t, n).value.children, i, source)
      == RenderChildren(t, w, ActiveAt(t, n).value.children, i, source)
    decreases |t.nodes| - n, 0, |ActiveAt(t, n).value.children| - i
  {
    hide TreeOk, ActiveAt, Render, AllOlder;
    var children := ActiveAt(t, n).value.children;
    if i < |children| {
      ActiveChild(t, n, i);
      OlderStill(v, n + 1, children[i]);
      OlderStill(w, n + 1, children[i]);
      RenderIgnoresVisiting(t, v, w, children[i]);
      var r := Render(t, v, children[i]);
      if r.Ok? { ChildrenIgnoreVisiting(t, v, w, n, i + 1, Subst(source, ChildName(i), r.value)); }
    }
  }

  // --- one node ---------------------------------------------------------------------------------

  /** Every node name is declared with the node's own unit. */
  ghost predicate Describes(units: UnitEnv, nodes: seq<Node>) {
    forall m :: 1 <= m <= |nodes| && nodes[m - 1].unit.Some? ==>
      NodeName(m) in units && units[NodeName(m)] == nodes[m - 1].unit.value.unit
  }

  /** The flat formula of a node checks with unit `d`. */
  predicate FlatIs(t: Tree, n: nat, units: UnitEnv, d: CompoundUnit)
    requires t.branches != []
  {
    Render(t, {}, n).Ok? && DimIs(Render(t, {}, n).value, units, d)
  }

  /** The flat formula of a node checks with the unit the node was declared with. */
  predicate KeepsUnit(t: Tree, n: nat, units: UnitEnv)
    requires t.branches != []
  {
    1 <= n <= |t.nodes| && t.nodes[n - 1].unit.Some? && FlatIs(t, n, units, t.nodes[n - 1].unit.value.unit)
  }

  /** What the branch's formula at a node makes of the units of its children. */
  predicate FormulaIs(t: Tree, n: nat, d: CompoundUnit)
    requires t.branches != [] && ActiveAt(t, n).Some?
  {
    var found := FindRelationship(t.relationships, ActiveAt(t, n).value.relationship);
    found.Some? && Measures(found.value.expression, found.value.childUnits, d)
  }

  /** The branch's formula at an expanded node gives the unit the node was declared with. */
  predicate Measured(t: Tree, n: nat)
    requires t.branches != []
  {
    ActiveAt(t, n).Some? ==>
      1 <= n <= |t.nodes| && t.nodes[n - 1].unit.Some? && FormulaIs(t, n, t.nodes[n - 1].unit.value.unit)
  }

  /** The relationship an active expansion evaluates, and the units of its children. */
  lemma {:induction false} ActiveRelationship(t: Tree, n: nat) returns (k: nat)
    requires TreeOk(t) && AllChecked(t) && t.branches != [] && ActiveAt(t, n).Some?
    ensures k < |t.relationships| && t.relationships[k].parentNode == n
    ensures FindRelationship(t.relationships, ActiveAt(t, n).value.relationship) == Some(t.relationships[k])
    ensures t.relationships[k].children == ActiveAt(t, n).value.children
    ensures |t.relationships[k].childUnits| == |ActiveAt(t, n).value.children| >= 1
    ensures forall i :: 0 <= i < |ActiveAt(t, n).value.children| ==>
      && 1 <= ActiveAt(t, n).value.children[i] <= |t.nodes|
      && t.nodes[ActiveAt(t, n).value.children[i] - 1].unit == Some(t.relationships[k].childUnits[i])
  {
    ActiveFacts(t, n);
    hide ActiveAt, FindRelationship, NodesOk, BranchesOk, PrunedOk;
    k := ActiveAt(t, n).value.id - 1;
    assert ExpansionOk(t.nodes, t.relationships, t.expansions, k);
    assert Checked(t.nodes, t.relationships[k]);
  }

  lemma {:induction false} DimensionAgrees(e: Expr, u: UnitEnv, v: UnitEnv)
    requires forall x :: x in Names(e) ==> (x in u <==> x in v) && (x in u ==> u[x] == v[x])
    ensures Dimension(e, u) == Dimension(e, v)
  {
    hide DimensionOfOp;
    match e
    case Name(_) =>
    case Const(_) =>
    case Unary(_, a) => DimensionAgrees(a, u, v);
    case Binary(_, a, b) => DimensionAgrees(a, u, v); DimensionAgrees(b, u, v);
  }

  /** Reading a placeholder at a unit close to its child's. */
  lemma {:induction false} PlaceholderScope(source: Expr, us: seq<UnitText>, i: nat, units: UnitEnv,
                                            own: CompoundUnit, d: CompoundUnit)
    requires i < |us| && Close(own, us[i].unit)
    ensures DimIs(source, units + ChildUnits(us, i), d)
      <==> DimIs(source, (units + ChildUnits(us, i + 1))[ChildName(i) := own], d)
  {
    hide Dimension, Close, ChildName;
    var was, now := units + ChildUnits(us, i), (units + ChildUnits(us, i + 1))[ChildName(i) := own];
    assert was == (units + ChildUnits(us, i + 1))[ChildName(i) := us[i].unit];
    forall x | x in Names(source) ensures (x in was <==> x in now) && (x in was ==> Close(was[x], now[x])) {
      if x == ChildName(i) {
        CloseSwap(own, us[i].unit);
      } else if x in was {
        SelfClose(was[x]);
      }
    }
    DimIsCongruence(source, was, now, d);
  }

  /** A formula of a child's unit may stand for the child's placeholder. */
  lemma {:induction false} SubstituteChild(source: Expr, r: Expr, us: seq<UnitText>, i: nat, units: UnitEnv,
                                           ids: set<nat>, d: CompoundUnit)
    requires i < |us| && !r.Const? && Names(r) == NodeNames(ids) && DimIs(r, units, us[i].unit)
    ensures DimIs(source, units + ChildUnits(us, i), d)
      <==> DimIs(Subst(source, ChildName(i), r), units + ChildUnits(us, i + 1), d)
  {
    var rest := units + ChildUnits(us, i + 1);
    var own := Dimension(r, units).value;
    ChildUnitsAt(us, i + 1);
    NodeNamesApart(ids, i + 1, |us|);
    forall x | x in Names(r) ensures x !in ChildUnits(us, i + 1)
    {
      assert x !in NodeNames(ids) * Placeholders(i + 1, |us|);
    }
    hide Dimension, Placeholders, NodeNames, Close, ChildUnits, ChildName;
    DimensionAgrees(r, units, rest);
    SubstDimension(source, ChildName(i), r, rest, own);
    PlaceholderScope(source, us, i, units, own, d);
  }

  ghost predicate ChildrenKeepUnits(t: Tree, n: nat, units: UnitEnv)
    requires t.branches != [] && ActiveAt(t, n).Some?
  {
    forall i :: 0 <= i < |ActiveAt(t, n).value.children| ==> KeepsUnit(t, ActiveAt(t, n).value.children[i], units)
  }

  lemma {:induction false} ChildrenExactly(t: Tree, n: nat, i: nat, source: Expr, done: set<nat>, units: UnitEnv,
                                           us: seq<UnitText>, d: CompoundUnit)
    requires TreeOk(t) && Canonical(t) && t.branches != [] && 1 <= n <= |t.nodes| && ActiveAt(t, n).Some?
    requires i <= |ActiveAt(t, n).value.children| == |us| && !source.Const?
    requires forall j :: 0 <= j < |us| ==>
      && 1 <= ActiveAt(t, n).value.children[j] <= |t.nodes|
      && t.nodes[ActiveAt(t, n).value.children[j] - 1].unit == Some(us[j])
    requires ChildrenKeepUnits(t, n, units)
    requires Names(source) == NodeNames(done) + Placeholders(i, |us|)
    ensures var r := RenderChildren(t, {n}, ActiveAt(t, n).value.children, i, source);
      r.Ok? && (DimIs(r.value, units, d) <==> DimIs(source, units + ChildUnits(us, i), d))
    decreases |ActiveAt(t, n).value.children| - i
  {
    hide TreeOk, Canonical, ActiveAt, Leaves, Render, Placeholders, NodeNames, DimIs;
    var children := ActiveAt(t, n).value.children;
    if i == |children| {
      assert units + map[] == units;
    } else {
      var c := children[i];
      ActiveChild(t, n, i);
      assert KeepsUnit(t, c, units);
      RenderIgnoresVisiting(t, {}, {n}, c);
      RenderOk(t, {n}, c);
      var r := Render(t, {n}, c).value;
      var next := Subst(source, ChildName(i), r);
      SubstNames(source, ChildName(i), r);
      SubstConst(source, ChildName(i), r);
      PlaceholdersSplit(i, |children|);
      NodeNamesApart(done, i, |children|);
      NodeNamesUnion(done, Leaves(t, c));
      assert Names(next) == NodeNames(done + Leaves(t, c)) + Placeholders(i + 1, |children|);
      SubstituteChild(source, r, us, i, units, Leaves(t, c), d);
      ChildrenExactly(t, n, i + 1, next, done + Leaves(t, c), units, us, d);
    }
  }

  /** Where the formulas of its children keep their units, the flat formula of an expanded node has the
      unit that its own formula makes of them, and no other. */
  lemma {:induction false} NodeExactly(t: Tree, n: nat, units: UnitEnv, d: CompoundUnit)
    requires TreeOk(t) && AllChecked(t) && Canonical(t) && t.branches != [] && 1 <= n <= |t.nodes|
    requires ActiveAt(t, n).Some? && ChildrenKeepUnits(t, n, units)
    ensures FlatIs(t, n, units, d) <==> FormulaIs(t, n, d)
  {
    hide TreeOk, AllChecked, Canonical, ActiveAt, FindRelationship, RenderChildren, ChildrenKeepUnits, DimIs;
    var k := ActiveRelationship(t, n);
    var r := t.relationships[k];
    CanonicalAt(t, n);
    EmptyNames();
    SourceNotConst(r.expression, |r.children|);
    assert {} + {n} == {n};
    ChildrenExactly(t, n, 0, r.expression, {}, units, r.childUnits, d);
    ScopeExactly(r.expression, units, r.childUnits, d);
  }

  /** A canonical formula does not notice the leaves' units. */
  lemma {:induction false} ScopeExactly(e: Expr, units: UnitEnv, us: seq<UnitText>, d: CompoundUnit)
    requires CanonicalFormula(e, |us|)
    ensures DimIs(e, units + ChildUnits(us, 0), d) <==> Measures(e, us, d)
  {
    ChildUnitsAt(us, 0);
    DimensionAgrees(e, units + ChildUnits(us, 0), ChildUnits(us, 0));
    hide Dimension, Close, Placeholders;
  }

  lemma {:induction false} LeafKeepsUnit(t: Tree, n: nat, units: UnitEnv)
    requires TreeOk(t) && t.branches != [] && 1 <= n <= |t.nodes| && ActiveAt(t, n).None?
    requires t.nodes[n - 1].unit.Some? && Describes(units, t.nodes)
    ensures KeepsUnit(t, n, units)
  {
    hide TreeOk, ActiveAt;
    SelfClose(t.nodes[n - 1].unit.value.unit);
    assert Render(t, {}, n) == Ok(Name(NodeName(n)));
  }

  // --- the whole branch ---------------------------------------------------------------------------

  lemma {:induction false} ReachedThroughChild(t: Tree, n: nat, i: nat, m: nat)
    requires TreeOk(t) && t.branches != [] && ActiveAt(t, n).Some? && i < |ActiveAt(t, n).value.children|
    ensures Reached(t, m, ActiveAt(t, n).value.children[i]) ==> Reached(t, m, n)
  {
    hide TreeOk, ActiveAt, Below;
    if Reached(t, m, ActiveAt(t, n).value.children[i]) {
      ActiveChild(t, n, i);
      BelowIsNotOlder(t, m, ActiveAt(t, n).value.children[i]);
      BelowThroughChild(t, m, n);
    }
  }

  /** Below a node, if every formula gives its node's unit, then every flat formula keeps it. */
  lemma {:induction false} MeasuredKeeps(t: Tree, n: nat, units: UnitEnv)
    requires TreeOk(t) && AllChecked(t) && Canonical(t) && t.branches != []
    requires 1 <= n <= |t.nodes| && t.nodes[n - 1].unit.Some? && Describes(units, t.nodes)
    requires forall m: nat :: Reached(t, m, n) ==> Measured(t, m)
    ensures KeepsUnit(t, n, units)
    decreases |t.nodes| - n
  {
    hide TreeOk, AllChecked, Canonical, ActiveAt, FormulaIs, FlatIs, Reached;
    if ActiveAt(t, n).None? {
      LeafKeepsUnit(t, n, units);
    } else {
      var k := ActiveRelationship(t, n);
      forall i | 0 <= i < |ActiveAt(t, n).value.children|
        ensures KeepsUnit(t, ActiveAt(t, n).value.children[i], units)
      {
        ActiveChild(t, n, i);
        forall m: nat | Reached(t, m, ActiveAt(t, n).value.children[i]) ensures Measured(t, m)
        {
          ReachedThroughChild(t, n, i, m);
        }
        MeasuredKeeps(t, ActiveAt(t, n).value.children[i], units);
      }
      SelfReached(t, n);
      NodeExactly(t, n, units, t.nodes[n - 1].unit.value.unit);
    }
  }

  lemma {:induction false} SelfReached(t: Tree, n: nat)
    requires t.branches != [] && 1 <= n <= |t.nodes|
    ensures Reached(t, n, n)
  {
    BelowSelf(t, n);
  }

  /** Every node the root reaches keeps its unit. */
  ghost predicate UnitsKept(t: Tree, units: UnitEnv)
    requires t.branches != []
  {
    forall n: nat :: Reached(t, n, 1) ==> KeepsUnit(t, n, units)
  }

  /** Every formula the root reaches gives the unit of its node. */
  ghost predicate UnitsMeasured(t: Tree)
    requires t.branches != []
  {
    forall n: nat :: Reached(t, n, 1) ==> Measured(t, n)
  }

  lemma {:induction false} UnitAt(t: Tree, n: nat)
    requires TreeOk(t) && AllChecked(t) && 1 <= n <= |t.nodes| && (n > 1 || t.nodes[0].unit.Some?)
    ensures t.nodes[n - 1].unit.Some?
  {
    if n > 1 {
      var j := OneOwner(t, n);
      ExpansionFacts(t, j);
      hide TreeOk;
      assert Checked(t.nodes, t.relationships[j]);
    }
  }

  lemma {:induction false} ReachedThrough(t: Tree, m: nat, n: nat)
    requires TreeOk(t) && t.branches != [] && Reached(t, n, 1) && Reached(t, m, n)
    ensures Reached(t, m, 1)
    decreases m
  {
    hide TreeOk, ActiveAt;
    if m != n {
      BelowIsNotOlder(t, t.nodes[m - 1].parent.value, n);
      ReachedThrough(t, t.nodes[m - 1].parent.value, n);
    }
  }

  /** The flat formula of every node the root reaches has the node's unit if and only if every formula on
      the way, with its placeholders bound by index, gives the unit of the node it expands.  Alternatives,
      which are never compiled, do not enter. */
  lemma {:induction false} UnitsKeptExactly(t: Tree, units: UnitEnv)
    requires TreeOk(t) && AllChecked(t) && Canonical(t) && t.branches != []
    requires t.nodes != [] && t.nodes[0].unit.Some? && Describes(units, t.nodes)
    ensures UnitsKept(t, units) <==> UnitsMeasured(t)
  {
    forall n: nat | Reached(t, n, 1) ensures t.nodes[n - 1].unit.Some? { UnitAt(t, n); }
    hide TreeOk, AllChecked, Canonical, ActiveAt, FormulaIs, FlatIs;
    if UnitsMeasured(t) {
      forall n: nat | Reached(t, n, 1) ensures KeepsUnit(t, n, units) {
        forall m: nat | Reached(t, m, n) ensures Measured(t, m) { ReachedThrough(t, m, n); }
        MeasuredKeeps(t, n, units);
      }
    }
    if UnitsKept(t, units) {
      forall n: nat | Reached(t, n, 1) && ActiveAt(t, n).Some? ensures Measured(t, n) {
        KeptMeasures(t, n, units);
      }
    }
  }

  lemma {:induction false} KeptMeasures(t: Tree, n: nat, units: UnitEnv)
    requires TreeOk(t) && AllChecked(t) && Canonical(t) && t.branches != [] && Reached(t, n, 1) && ActiveAt(t, n).Some?
    requires t.nodes[n - 1].unit.Some? && UnitsKept(t, units)
    ensures Measured(t, n)
  {
    hide TreeOk, AllChecked, Canonical, ActiveAt, FormulaIs, FlatIs, Reached;
    forall i | 0 <= i < |ActiveAt(t, n).value.children| ensures KeepsUnit(t, ActiveAt(t, n).value.children[i], units) {
      ActiveChild(t, n, i);
      SelfReached(t, ActiveAt(t, n).value.children[i]);
      ReachedThroughChild(t, n, i, ActiveAt(t, n).value.children[i]);
      ReachedThrough(t, ActiveAt(t, n).value.children[i], n);
    }
    assert 1 <= n <= |t.nodes| by { ReachedRange(t, n); }
    assert KeepsUnit(t, n, units);
    NodeExactly(t, n, units, t.nodes[n - 1].unit.value.unit);
  }

  lemma {:induction false} ReachedRange(t: Tree, n: nat)
    requires t.branches != [] && Reached(t, n, 1)
    ensures 1 <= n <= |t.nodes|
  {
  }

  /** The unit of a formula on the branch, told from its request: the check of the corrected request, and,
      when its placeholders are in order, whether the unit it is said to produce is the node's. */
  lemma {:induction false} MeasuredExactly(t: Tree, n: nat)
    requires TreeOk(t) && AllChecked(t) && Canonical(t) && t.branches != []
    requires 1 <= n <= |t.nodes| && t.nodes[n - 1].unit.Some? && ActiveAt(t, n).Some?
    ensures FindRelationship(t.relationships, ActiveAt(t, n).value.relationship).Some?
    ensures
      var found := FindRelationship(t.relationships, ActiveAt(t, n).value.relationship);
      var r := Request(n, found.value.parentUnit, found.value.expression, found.value.childUnits);
      var d := t.nodes[n - 1].unit.value.unit;
      && Closes(r) && CanonicalFormula(r.expression, |r.childUnits|)
      && (Measured(t, n) <==> Closes(Corrected(r, d)))
      && (InChildOrder(r.expression, |r.childUnits|) ==> (Measured(t, n) <==> Close(r.parentUnit.unit, d)))
  {
    hide TreeOk, Canonical, ActiveAt, FindRelationship, Measures, Close, InChildOrder;
    var k := ActiveRelationship(t, n);
    CanonicalAt(t, n);
    assert Checked(t.nodes, t.relationships[k]);
    hide AllChecked;
    var found := FindRelationship(t.relationships, ActiveAt(t, n).value.relationship);
    var r := Request(n, found.value.parentUnit, found.value.expression, found.value.childUnits);
    var d := t.nodes[n - 1].unit.value.unit;
    assert Closes(r);
    MeasuresExactly(r, d);
    if InChildOrder(r.expression, |r.childUnits|) { OrderedRequestExactly(r, d); }
  }

  /** So the flat expression of the branch has the root's unit over the units of its leaves. */
  lemma {:induction false} FlatteningPreservesDimension(t: Tree, units: UnitEnv)
    requires TreeOk(t) && AllChecked(t) && Canonical(t) && t.branches != [] && UnitsMeasured(t)
    requires t.nodes != [] && t.nodes[0].unit.Some? && Describes(units, t.nodes)
    ensures ActiveExpression(t).Ok? && DimIs(ActiveExpression(t).value, units, t.nodes[0].unit.value.unit)
  {
    hide TreeOk, AllChecked, Canonical, ActiveAt, FormulaIs, Render, DimIs, Measured;
    OneRoot(t);
    SelfReached(t, 1);
    UnitsKeptExactly(t, units);
    assert KeepsUnit(t, 1, units);
  }

  /** And a choice of base units rescales the flat estimate by exactly the factor of the root's unit. */
  lemma {:induction false} EstimateRescales(t: Tree, units: UnitEnv, leaf: Values, s: Scale, labels: seq<string>)
    requires TreeOk(t) && AllChecked(t) && Canonical(t) && t.branches != [] && UnitsMeasured(t)
    requires t.nodes != [] && t.nodes[0].unit.Some? && Describes(units, t.nodes)
    requires Positive(s)
    ensures ActiveExpression(t).Ok?
      && RescalesAs(ActiveExpression(t).value, units, leaf, t.nodes[0].unit.value.unit, s, labels)
  {
    hide TreeOk, AllChecked, Canonical, UnitsMeasured, Describes, ActiveExpression, Factor, Eval, Dimension;
    FlatteningPreservesDimension(t, units);
    var e := ActiveExpression(t).value;
    Homogeneous(e, units, leaf, s, labels);
    FactorClose(s, labels, Dimension(e, units).value, t.nodes[0].unit.value.unit);
  }

  // --- requests that pass the check and lose the unit ---------------------------------------------

  lemma {:induction false} FirstGrown(t: Tree, r: Request)
    requires TreeOk(t) && |t.branches| > 0 && |t.nodes| == 1 && t.relationships == [] && t.expansions == []
      && r.target == 1
    ensures var u := Grow(t, r, None, false);
      && u.nodes != [] && u.nodes[0].unit == t.nodes[0].unit && u.relationships == [NewRelationship(t, r)]
      && |u.expansions| == 1 && u.expansions[0].target == 1
  {
    GrownNodes(t, r, None, false);
    GrownBranchList(t, r, None, false);
    GrownRelationships(t, r, None, false);
    hide Grow, NodesOk, ExpansionsOk, BranchesOk, PrunedOk;
  }

  lemma {:induction false} FirstAccepted(t: Tree, r: Request)
    requires |t.branches| > 0 && |t.nodes| == 1 && t.nodes[0].id == 1 && t.nodes[0].status.Open? && t.expansions == []
    requires r.target == 1 && r.childUnits != [] && Closes(r) && |Grow(t, r, None, false).expansions| == 1
    ensures ApplyAction(t, ExpandAction(r)) == Ok(Grow(t, r, None, false))
  {
    hide Grow, Closes, CurrentBranch;
    assert FindNode(t.nodes, 1) == Some(t.nodes[0]);
    assert ExpansionsAt(t.expansions, 1) == [];
  }

  /** A tree of one accepted expansion of the root. */
  lemma {:induction false} FirstExpansionTree(printer: Signatures.Printer, rootUnit: UnitText, incomplete: bool,
                                              r: Request)
    requires r.target == 1 && r.childUnits != [] && Closes(r)
    ensures TreeOk(Create(printer, Some(rootUnit), incomplete))
      && Create(printer, Some(rootUnit), incomplete).branches != []
    ensures ApplyAction(Create(printer, Some(rootUnit), incomplete), ExpandAction(r)).Ok?
    ensures
      var t := ApplyAction(Create(printer, Some(rootUnit), incomplete), ExpandAction(r)).value;
      && t.branches != [] && TreeOk(t) && AllChecked(t)
      && (CanonicalFormula(r.expression, |r.childUnits|) ==> Canonical(t))
      && t.nodes != [] && t.nodes[0].unit == Some(rootUnit)
      && t.relationships == [NewRelationship(Create(printer, Some(rootUnit), incomplete), r)]
      && |t.expansions| == 1 && t.expansions[0].target == 1
  {
    var t0 := Create(printer, Some(rootUnit), incomplete);
    CreateOk(printer, Some(rootUnit), incomplete);
    hide Grow, Closes, TreeOk, CanonicalFormula, Canonical, ApplyAction;
    assert AllChecked(t0) && EveryFormula(t0, CanonicalFirst);
    hide AllChecked, EveryFormula;
    FirstGrown(t0, r);
    FirstAccepted(t0, r);
    var t := Grow(t0, r, None, false);
    ActionKeeps(t0, ExpandAction(r));
    ActionChecked(t0, ExpandAction(r));
    BranchesExist(t);
    if CanonicalFormula(r.expression, |r.childUnits|) {
      ActionEvery(t0, ExpandAction(r), CanonicalFirst);
      EveryIsCanonical(t);
    }
  }

  /** After one canonical expansion of the root the flat expression has exactly the units that the
      formula, bound by index, makes of its children. */
  lemma {:induction false} FirstExpansionExactly(printer: Signatures.Printer, rootUnit: UnitText, incomplete: bool,
                                                 r: Request, units: UnitEnv, d: CompoundUnit)
    requires r.target == 1 && r.childUnits != [] && Closes(r) && CanonicalFormula(r.expression, |r.childUnits|)
    ensures Create(printer, Some(rootUnit), incomplete).branches != []
    ensures ApplyAction(Create(printer, Some(rootUnit), incomplete), ExpandAction(r)).Ok?
    ensures
      var t := ApplyAction(Create(printer, Some(rootUnit), incomplete), ExpandAction(r)).value;
      && t.branches != [] && t.nodes != [] && t.nodes[0].unit == Some(rootUnit) && ActiveExpression(t).Ok?
      && (Describes(units, t.nodes) ==>
            (DimIs(ActiveExpression(t).value, units, d) <==> Measures(r.expression, r.childUnits, d)))
  {
    FirstExpansionTree(printer, rootUnit, incomplete, r);
    var t := ApplyAction(Create(printer, Some(rootUnit), incomplete), ExpandAction(r)).value;
    hide TreeOk, AllChecked, Canonical, Create, ApplyAction, CanonicalFormula, Describes, Closes, Render, Measures,
         DimIs, ActiveAt;
    OneRoot(t);
    RenderOk(t, {}, 1);
    ActiveFacts(t, 1);
    if Describes(units, t.nodes) {
      OneExpansionExactly(t, units, d);
    }
  }

  lemma {:induction false} OneExpansionExactly(t: Tree, units: UnitEnv, d: CompoundUnit)
    requires TreeOk(t) && AllChecked(t) && Canonical(t) && t.branches != [] && t.nodes != []
      && Describes(units, t.nodes)
    requires |t.expansions| == |t.relationships| == 1 && t.expansions[0].target == 1
    ensures FlatIs(t, 1, units, d) <==> Measures(t.relationships[0].expression, t.relationships[0].childUnits, d)
  {
    hide TreeOk, AllChecked, Canonical, Describes, Measures, FlatIs, ActiveAt, FindRelationship;
    assert IsTarget(t.expansions, 1);
    ActiveFacts(t, 1);
    var k := ActiveRelationship(t, 1);
    forall i | 0 <= i < |ActiveAt(t, 1).value.children| ensures KeepsUnit(t, ActiveAt(t, 1).value.children[i], units) {
      var c := ActiveAt(t, 1).value.children[i];
      ActiveChild(t, 1, i);
      ActiveFacts(t, c);
      LeafKeepsUnit(t, c, units);
    }
    NodeExactly(t, 1, units, d);
  }

  /** The units the nodes were declared with, by node name. */
  function NodeUnits(nodes: seq<Node>, k: nat): UnitEnv
    requires k <= |nodes|
  {
    if k == 0 then map[]
    else if nodes[k - 1].unit.Some? then NodeUnits(nodes, k - 1)[NodeName(k) := nodes[k - 1].unit.value.unit]
    else NodeUnits(nodes, k - 1)
  }

  lemma {:induction false} NodeUnitsDescribe(nodes: seq<Node>, k: nat)
    requires k <= |nodes|
    ensures forall m :: 1 <= m <= k && nodes[m - 1].unit.Some? ==>
      NodeName(m) in NodeUnits(nodes, k) && NodeUnits(nodes, k)[NodeName(m)] == nodes[m - 1].unit.value.unit
  {
    if k > 0 {
      NodeUnitsDescribe(nodes, k - 1);
      forall m: nat | m < k ensures NodeName(m) != NodeName(k) { NamesApart(m, k); }
      hide NodeName;
    }
  }

  lemma {:induction false} RootUnitStep(t: Tree, a: TreeAction)
    requires TreeOk(t) && t.branches != [] && t.nodes != [] && ApplyAction(t, a).Ok?
    ensures ApplyAction(t, a).value.nodes != [] && ApplyAction(t, a).value.nodes[0].unit == t.nodes[0].unit
  {
    if a.AtomAction? {
      hide TreeOk, FindNode, QuestionCompletes;
    } else {
      var alternativeOf, redundant := ActionGrows(t, a);
      GrownNodes(t, a.request, alternativeOf, redundant);
      hide ApplyAction, Grow, NodesOk, ExpansionsOk, BranchesOk, PrunedOk;
    }
  }

  lemma {:induction false} RootKeepsUnit(start: Tree, actions: seq<TreeAction>)
    requires TreeOk(start) && start.nodes != [] && Rebuild(start, actions).Ok?
    ensures Rebuild(start, actions).value.nodes != []
      && Rebuild(start, actions).value.nodes[0].unit == start.nodes[0].unit
  {
    hide TreeOk, ApplyAction;
    if actions != [] {
      var n := |actions| - 1;
      RootKeepsUnit(start, actions[..n]);
      var t := Rebuild(start, actions[..n]).value;
      BranchesExist(t);
      RootUnitStep(t, actions[n]);
    }
  }

  /** Over whole runs: in every tree built by actions whose first expansions are canonical, from a question
      with a unit, the flat formulas keep their nodes' units exactly when the current branch's formulas give
      them. */
  lemma {:induction false} RebuiltUnitsExactly(printer: Signatures.Printer, rootUnit: UnitText, incomplete: bool,
                                               actions: seq<TreeAction>)
    requires TreeOk(Create(printer, Some(rootUnit), incomplete))
    requires RunBrings(Create(printer, Some(rootUnit), incomplete), actions, CanonicalFirst)
    requires Rebuild(Create(printer, Some(rootUnit), incomplete), actions).Ok?
    ensures var t := Rebuild(Create(printer, Some(rootUnit), incomplete), actions).value;
      && t.branches != [] && t.nodes != [] && t.nodes[0].unit == Some(rootUnit)
      && (UnitsKept(t, NodeUnits(t.nodes, |t.nodes|)) <==> UnitsMeasured(t))
  {
    var t0 := Create(printer, Some(rootUnit), incomplete);
    var t := Rebuild(t0, actions).value;
    assert AllChecked(t0) && EveryFormula(t0, CanonicalFirst) && t0.nodes[0].unit == Some(rootUnit);
    hide TreeOk, AllChecked, Canonical, EveryFormula, Create, Rebuild, RunBrings, UnitsKept, UnitsMeasured;
    RebuiltChecked(t0, actions);
    RebuiltEvery(t0, actions, CanonicalFirst);
    EveryIsCanonical(t);
    RootKeepsUnit(t0, actions);
    BranchesExist(t);
    NodeUnitsDescribe(t.nodes, |t.nodes|);
    UnitsKeptExactly(t, NodeUnits(t.nodes, |t.nodes|));
  }

  /** Over the units of its own nodes the branch compiles to an expression of unit `own` and not of the
      root's, and some choice of base units moves its value otherwise than it moves the root's unit. */
  ghost predicate LosesUnit(t: Tree, own: CompoundUnit, leaf: Values) {
    && t.branches != [] && t.nodes != [] && t.nodes[0].unit.Some? && ActiveExpression(t).Ok?
    && var flat, units, root := ActiveExpression(t).value, NodeUnits(t.nodes, |t.nodes|), t.nodes[0].unit.value.unit;
    && DimIs(flat, units, own) && !DimIs(flat, units, root)
    && exists s: Scale, labels :: Positive(s) && !RescalesAs(flat, units, leaf, root, s, labels)
  }

  /** After one accepted expansion of the root: if the formula, bound by index, makes another unit than
      the root's, the flat expression has that unit and its nonzero values rescale wrongly. */
  lemma {:induction false} FirstExpansionLoses(printer: Signatures.Printer, rootUnit: UnitText, incomplete: bool,
                                               r: Request, own: CompoundUnit, leaf: Values)
    requires r.target == 1 && r.childUnits != [] && Closes(r) && CanonicalFormula(r.expression, |r.childUnits|)
    requires Measures(r.expression, r.childUnits, own) && !Close(own, rootUnit.unit)
    ensures Create(printer, Some(rootUnit), incomplete).branches != []
    ensures ApplyAction(Create(printer, Some(rootUnit), incomplete), ExpandAction(r)).Ok?
    ensures
      var t := ApplyAction(Create(printer, Some(rootUnit), incomplete), ExpandAction(r)).value;
      && t.branches != [] && ActiveExpression(t).Ok?
      && var v := Eval(ActiveExpression(t).value, leaf);
      (v.Ok? && v.value != 0.0 ==> LosesUnit(t, own, leaf))
  {
    FirstExpansionTree(printer, rootUnit, incomplete, r);
    var t := ApplyAction(Create(printer, Some(rootUnit), incomplete), ExpandAction(r)).value;
    var units := NodeUnits(t.nodes, |t.nodes|);
    NodeUnitsDescribe(t.nodes, |t.nodes|);
    FirstExpansionExactly(printer, rootUnit, incomplete, r, units, own);
    FirstExpansionExactly(printer, rootUnit, incomplete, r, units, rootUnit.unit);
    var flat := ActiveExpression(t).value;
    var v := Eval(flat, leaf);
    hide TreeOk, AllChecked, Create, ApplyAction, CanonicalFormula, Closes, ActiveExpression, NodeUnits, Eval,
         Dimension, Close, NodeName;
    assert DimIs(flat, units, own);
    CloseChain(Dimension(flat, units).value, own, rootUnit.unit);
    if v.Ok? && v.value != 0.0 { RescalesExactly(flat, units, leaf, rootUnit.unit); }
  }

  lemma {:induction false} RenderLeaf(t: Tree, v: set<nat>, c: nat)
    requires TreeOk(t) && t.branches != [] && |t.expansions| == 1 && t.expansions[0].target == 1 && c > 1 && c !in v
    ensures Render(t, v, c) == Ok(Name(NodeName(c)))
  {
    ActiveFacts(t, c);
    hide ActiveAt;
  }

  /** What one expansion of the root compiles to. */
  lemma {:induction false} FirstFlat(t: Tree, r: Relationship)
    requires TreeOk(t) && |t.expansions| == 1 && t.expansions[0].target == 1 && t.relationships == [r]
    ensures t.branches != [] && ActiveExpression(t) == RenderChildren(t, {1}, r.children, 0, r.expression)
  {
    BranchesExist(t);
    OneRoot(t);
    ActiveFacts(t, 1);
    hide ActiveAt, TreeOk, Roots;
    assert {} + {1} == {1};
  }

  lemma {:induction false} NewChildren(printer: Signatures.Printer, rootUnit: UnitText, incomplete: bool, r: Request)
    ensures var m := NewRelationship(Create(printer, Some(rootUnit), incomplete), r);
      m.children == Range(2, |r.childUnits|) && m.expression == r.expression
  {
  }

  /** Nothing compares the unit an expansion is said to produce with the unit of its node: a root of any
      dimension takes a dimensionless formula, and the flat expression is then dimensionless. */
  lemma {:induction false} ParentUnitUnchecked(printer: Signatures.Printer, rootUnit: UnitText, incomplete: bool,
                                               x: real)
    requires !Close(DIMENSIONLESS, rootUnit.unit) && x != 0.0
    ensures Create(printer, Some(rootUnit), incomplete).branches != []
    ensures ApplyAction(Create(printer, Some(rootUnit), incomplete), ExpandAction(OneChild(1, false))).Ok?
    ensures
      var t := ApplyAction(Create(printer, Some(rootUnit), incomplete), ExpandAction(OneChild(1, false))).value;
      && t.branches != [] && ActiveExpression(t) == Ok(Name(NodeName(2)))
      && LosesUnit(t, DIMENSIONLESS, map[NodeName(2) := x])
  {
    var r := OneChild(1, false);
    OneChildCloses(1, false);
    FirstExpansionTree(printer, rootUnit, incomplete, r);
    var t := ApplyAction(Create(printer, Some(rootUnit), incomplete), ExpandAction(r)).value;
    OneChildMeasures();
    FirstExpansionLoses(printer, rootUnit, incomplete, r, DIMENSIONLESS, map[NodeName(2) := x]);
    NewChildren(printer, rootUnit, incomplete, r);
    hide TreeOk, AllChecked, Canonical, Create, NewRelationship, ApplyAction, Closes, ActiveExpression, ChildName,
         NodeName, LosesUnit, Measures;
    var m := t.relationships[0];
    assert m.children == [2] && m.expression == Name(ChildName(0));
    FirstFlat(t, m);
    RenderLeaf(t, {1}, 2);
    assert Subst(m.expression, ChildName(0), Name(NodeName(2))) == Name(NodeName(2));
    assert Eval(Name(NodeName(2)), map[NodeName(2) := x]) == Ok(x);
  }

  lemma {:induction false} OneChildMeasures()
    ensures CanonicalFormula(OneChild(1, false).expression, 1)
    ensures Measures(OneChild(1, false).expression, OneChild(1, false).childUnits, DIMENSIONLESS)
  {
    var us := [Plain()];
    ChildUnitsAt(us, 0);
    NoPlaceholders(0);
    PlaceholdersSnoc(1);
    hide ChildUnits, ChildName, Placeholders;
  }

  /** `second / first`: the check binds the first unit to the placeholder met first, which is the second
      child's. */
  function SecondOverFirst(a: CompoundUnit, b: CompoundUnit): Request {
    Request(1, UnitText("", Divide(a, b)), Binary(Div, Name(ChildName(1)), Name(ChildName(0))),
      [UnitText("", a), UnitText("", b)])
  }

  lemma {:induction false} QuotientUnit(p: string, q: string, units: UnitEnv)
    requires p in units && q in units
    ensures Dimension(Binary(Div, Name(p), Name(q)), units) == Ok(Divide(units[p], units[q]))
  {
    assert Dimension(Name(p), units) == Ok(units[p]) && Dimension(Name(q), units) == Ok(units[q]);
  }

  lemma {:induction false} PairInOrder(p: string, q: string)
    requires p != q
    ensures InOrder(Binary(Div, Name(p), Name(q))) == [p, q]
  {
    assert InOrder(Name(p)) == [p] && InOrder(Name(q)) == [q];
    assert [q][1..] == [] && [p] + [q] == [p, q];
    assert Merge([p] + [q], []) == [p] + [q];
    assert Merge([p], [q]) == Merge([p] + [q], [q][1..]);
  }

  lemma {:induction false} PairBinding(p: string, q: string, us: seq<UnitText>)
    requires p != q && |us| == 2
    ensures Bind([p, q], us) == map[p := us[0].unit, q := us[1].unit]
  {
    BindNone([p, q][..0], us[..0]);
    BindStep([p, q], us, 1);
    BindStep([p, q], us, 2);
    assert [p, q][..2] == [p, q] && us[..2] == us;
    hide Bind;
  }

  lemma {:induction false} SecondOverFirstCloses(a: CompoundUnit, b: CompoundUnit)
    ensures Closes(SecondOverFirst(a, b))
  {
    var r := SecondOverFirst(a, b);
    NamesApart(0, 1);
    PairInOrder(ChildName(1), ChildName(0));
    PairBinding(ChildName(1), ChildName(0), r.childUnits);
    QuotientUnit(ChildName(1), ChildName(0), map[ChildName(1) := a, ChildName(0) := b]);
    SelfClose(Divide(a, b));
    hide ChildName, Divide, InOrder, Bind, Dimension, Close;
  }

  lemma {:induction false} SecondOverFirstMeasures(a: CompoundUnit, b: CompoundUnit)
    ensures CanonicalFormula(SecondOverFirst(a, b).expression, 2)
    ensures Measures(SecondOverFirst(a, b).expression, SecondOverFirst(a, b).childUnits, Divide(b, a))
    ensures Close(Divide(b, a), Divide(a, b)) <==> Close(a, b)
  {
    var us := SecondOverFirst(a, b).childUnits;
    ChildUnitsAt(us, 0);
    PlaceholdersSnoc(2);
    PlaceholdersSnoc(1);
    NoPlaceholders(0);
    SelfClose(Divide(b, a));
    SwappedQuotient(a, b);
    hide ChildUnits, ChildName, Placeholders, Close, Divide;
    assert us[0].unit == a && us[1].unit == b;
    QuotientUnit(ChildName(1), ChildName(0), ChildUnits(us, 0));
    assert Names(Binary(Div, Name(ChildName(1)), Name(ChildName(0)))) == {ChildName(1), ChildName(0)} by {
      assert Names(Name(ChildName(1))) == {ChildName(1)} && Names(Name(ChildName(0))) == {ChildName(0)};
    }
    hide Dimension, Names;
  }

  lemma {:induction false} SwappedQuotient(a: CompoundUnit, b: CompoundUnit)
    ensures Close(Divide(b, a), Divide(a, b)) <==> Close(a, b)
  {
    CloseExactly(a, b);
    CloseExactly(Divide(b, a), Divide(a, b));
    forall l
      ensures Exponent(Divide(a, b), l) == Exponent(a, l) - Exponent(b, l)
        && Exponent(Divide(b, a), l) == Exponent(b, l) - Exponent(a, l)
    {
      ExponentLaws(a, b, 0, l);
      ExponentLaws(b, a, 0, l);
    }
    hide Divide, Exponent, Close;
  }

  lemma {:induction false} PairFlat(t: Tree, p: nat, q: nat)
    requires t.branches != [] && Render(t, {1}, p) == Ok(Name(NodeName(p)))
      && Render(t, {1}, q) == Ok(Name(NodeName(q)))
    ensures RenderChildren(t, {1}, [p, q], 0, Binary(Div, Name(ChildName(1)), Name(ChildName(0))))
         == Ok(Binary(Div, Name(NodeName(q)), Name(NodeName(p))))
  {
    NamesApart(0, 1);
    NamesApart(p, 1);
    hide Render, ChildName, NodeName;
    var e := Binary(Div, Name(ChildName(1)), Name(ChildName(0)));
    var half := Binary(Div, Name(ChildName(1)), Name(NodeName(p)));
    SubstPair(ChildName(1), ChildName(0), ChildName(0), Name(NodeName(p)));
    SubstPair(ChildName(1), NodeName(p), ChildName(1), Name(NodeName(q)));
    hide Subst;
    assert RenderChildren(t, {1}, [p, q], 2, Binary(Div, Name(NodeName(q)), Name(NodeName(p))))
        == Ok(Binary(Div, Name(NodeName(q)), Name(NodeName(p))));
    assert RenderChildren(t, {1}, [p, q], 1, half)
      == RenderChildren(t, {1}, [p, q], 2, Binary(Div, Name(NodeName(q)), Name(NodeName(p))));
  }

  lemma {:induction false} SubstPair(p: string, q: string, x: string, r: Expr)
    ensures Subst(Binary(Div, Name(p), Name(q)), x, r)
      == Binary(Div, if p == x then r else Name(p), if q == x then r else Name(q))
  {
    assert Subst(Name(p), x, r) == if p == x then r else Name(p);
    assert Subst(Name(q), x, r) == if q == x then r else Name(q);
  }

  /** Placeholders are bound to units by first appearance and rendered by index: an expansion whose unit is
      the root's own is accepted, and the flat expression has the inverse unit. */
  lemma {:induction false} PlaceholdersSwapped(printer: Signatures.Printer, a: CompoundUnit, b: CompoundUnit,
                                               incomplete: bool, x: real, y: real)
    requires !Close(a, b) && x != 0.0 && y != 0.0
    ensures Create(printer, Some(UnitText("", Divide(a, b))), incomplete).branches != []
    ensures ApplyAction(Create(printer, Some(UnitText("", Divide(a, b))), incomplete),
      ExpandAction(SecondOverFirst(a, b))).Ok?
    ensures
      var t := ApplyAction(Create(printer, Some(UnitText("", Divide(a, b))), incomplete),
        ExpandAction(SecondOverFirst(a, b))).value;
      && t.branches != [] && ActiveExpression(t) == Ok(Binary(Div, Name(NodeName(3)), Name(NodeName(2))))
      && LosesUnit(t, Divide(b, a), map[NodeName(2) := x, NodeName(3) := y])
  {
    var r, root := SecondOverFirst(a, b), UnitText("", Divide(a, b));
    SecondOverFirstCloses(a, b);
    SecondOverFirstMeasures(a, b);
    FirstExpansionTree(printer, root, incomplete, r);
    FirstExpansionLoses(printer, root, incomplete, r, Divide(b, a), map[NodeName(2) := x, NodeName(3) := y]);
    NamesApart(2, 3);
    QuotientValue(NodeName(3), NodeName(2), x, y);
    SwappedFlat(printer, root, incomplete, r);
    hide TreeOk, AllChecked, ApplyAction, Create, Closes, ActiveExpression, LosesUnit, Measures, Divide, Close,
         NodeName, ChildName, Eval, CanonicalFormula;
  }

  lemma {:induction false} SwappedFlat(printer: Signatures.Printer, rootUnit: UnitText, incomplete: bool, r: Request)
    requires r.target == 1 && |r.childUnits| == 2 && Closes(r)
      && r.expression == Binary(Div, Name(ChildName(1)), Name(ChildName(0)))
    ensures Create(printer, Some(rootUnit), incomplete).branches != []
    ensures ApplyAction(Create(printer, Some(rootUnit), incomplete), ExpandAction(r)).Ok?
    ensures
      var t := ApplyAction(Create(printer, Some(rootUnit), incomplete), ExpandAction(r)).value;
      t.branches != [] && ActiveExpression(t) == Ok(Binary(Div, Name(NodeName(3)), Name(NodeName(2))))
  {
    FirstExpansionTree(printer, rootUnit, incomplete, r);
    var t := ApplyAction(Create(printer, Some(rootUnit), incomplete), ExpandAction(r)).value;
    NewChildren(printer, rootUnit, incomplete, r);
    hide TreeOk, AllChecked, Canonical, Create, NewRelationship, ApplyAction, Closes, ActiveExpression, NodeName,
         ChildName, RenderChildren, Render;
    var m := t.relationships[0];
    assert m.children == [2, 3];
    FirstFlat(t, m);
    RenderLeaf(t, {1}, 2);
    RenderLeaf(t, {1}, 3);
    PairFlat(t, 2, 3);
  }

  lemma {:induction false} QuotientValue(p: string, q: string, x: real, y: real)
    requires p != q && x != 0.0 && y != 0.0
    ensures var v := Eval(Binary(Div, Name(p), Name(q)), map[q := x, p := y]); v.Ok? && v.value != 0.0
  {
    QuotientUnique(y, x, Over(y, x));
    assert Eval(Name(p), map[q := x, p := y]) == Ok(y) && Eval(Name(q), map[q := x, p := y]) == Ok(x);
  }
}
