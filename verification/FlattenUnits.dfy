/** What the dimensional check of an expansion establishes, and what the compiler makes of the same formula. */
module FlattenUnits {
  import opened Wrappers
  import opened Expressions
  import opened Units
  import opened Dimensions
  import opened Trees
  import opened TreeShape
  import opened TreePruning
  import opened Flatten
  import opened TreeActions
  import opened TreeRefinement

  // --- dimensions and substitution ----------------------------------------------------------

  lemma {:induction false} SubstDimension(e: Expr, x: string, r: Expr, units: UnitEnv, d: CompoundUnit)
    requires !r.Const? && Dimension(r, units) == Ok(d)
    ensures Dimension(Subst(e, x, r), units) == Dimension(e, units[x := d])
  {
    hide DimensionOfOp;
    match e
    case Name(_) =>
    case Const(_) =>
    case Unary(_, a) => SubstDimension(a, x, r, units, d);
    case Binary(op, a, b) =>
      SubstDimension(a, x, r, units, d);
      SubstDimension(b, x, r, units, d);
      SubstExponent(b, x, r);
      if Dimension(a, units[x := d]).Ok? && Dimension(b, units[x := d]).Ok? {
        SameExponent(op, Dimension(a, units[x := d]).value, Dimension(b, units[x := d]).value, Subst(b, x, r), b);
      }
  }

  lemma {:induction false} SubstExponent(e: Expr, x: string, r: Expr)
    requires !r.Const?
    ensures Subst(e, x, r) == e || (!e.Const? && !Subst(e, x, r).Const?)
  {
  }

  lemma {:induction false} SameExponent(op: Op, a: CompoundUnit, b: CompoundUnit, e: Expr, f: Expr)
    requires e == f || (!e.Const? && !f.Const?)
    ensures DimensionOfOp(op, a, b, e) == DimensionOfOp(op, a, b, f)
  {
  }

  /** The environments declare the same of these names, with close units. */
  ghost predicate CloseEnvs(names: set<string>, u: UnitEnv, v: UnitEnv) {
    forall x :: x in names ==> (x in u <==> x in v) && (x in u ==> Close(u[x], v[x]))
  }

  /** The expression checks, with a unit close to `d`. */
  predicate DimIs(e: Expr, units: UnitEnv, d: CompoundUnit) {
    Dimension(e, units).Ok? && Close(Dimension(e, units).value, d)
  }

  lemma {:induction false} OpCongruence(op: Op, a: CompoundUnit, b: CompoundUnit, a': CompoundUnit, b': CompoundUnit,
                                        e: Expr)
    requires Close(a, a') && Close(b, b') && DimensionOfOp(op, a, b, e).Ok?
    ensures DimensionOfOp(op, a', b', e).Ok?
    ensures Close(DimensionOfOp(op, a, b, e).value, DimensionOfOp(op, a', b', e).value)
  {
    CloseExactly(a, a');
    CloseExactly(b, b');
    var d := DimensionOfOp(op, a, b, e).value;
    match op
    case Add =>
    case Sub =>
    case Mul => MultiplyClose(a, b, a', b');
    case Div => DivideClose(a, b, a', b');
    case Pow => PowerClose(a, a', e.value.n);
  }

  lemma {:induction false} MultiplyClose(a: CompoundUnit, b: CompoundUnit, a': CompoundUnit, b': CompoundUnit)
    requires forall l :: Exponent(a, l) == Exponent(a', l) && Exponent(b, l) == Exponent(b', l)
    ensures Close(Multiply(a, b), Multiply(a', b'))
  {
    forall l ensures Exponent(Multiply(a, b), l) == Exponent(Multiply(a', b'), l) {
      ExponentLaws(a, b, 0, l);
      ExponentLaws(a', b', 0, l);
    }
    CloseExactly(Multiply(a, b), Multiply(a', b'));
  }

  lemma {:induction false} DivideClose(a: CompoundUnit, b: CompoundUnit, a': CompoundUnit, b': CompoundUnit)
    requires forall l :: Exponent(a, l) == Exponent(a', l) && Exponent(b, l) == Exponent(b', l)
    ensures Close(Divide(a, b), Divide(a', b'))
  {
    forall l ensures Exponent(Divide(a, b), l) == Exponent(Divide(a', b'), l) {
      ExponentLaws(a, b, 0, l);
      ExponentLaws(a', b', 0, l);
    }
    CloseExactly(Divide(a, b), Divide(a', b'));
  }

  lemma {:induction false} PowerClose(a: CompoundUnit, a': CompoundUnit, n: int)
    requires forall l :: Exponent(a, l) == Exponent(a', l)
    ensures Close(Power(a, n), Power(a', n))
  {
    forall l ensures Exponent(Power(a, n), l) == Exponent(Power(a', n), l) {
      ExponentLaws(a, a, n, l);
      ExponentLaws(a', a', n, l);
    }
    CloseExactly(Power(a, n), Power(a', n));
  }

  /** Units that are merely close give a close dimension. */
  lemma {:induction false} DimensionCongruence(e: Expr, u: UnitEnv, v: UnitEnv)
    requires CloseEnvs(Names(e), u, v) && Dimension(e, u).Ok?
    ensures Dimension(e, v).Ok? && Close(Dimension(e, u).value, Dimension(e, v).value)
  {
    hide DimensionOfOp, Close;
    match e
    case Name(_) =>
    case Const(_) => SelfClose(DIMENSIONLESS);
    case Unary(_, a) => DimensionCongruence(a, u, v);
    case Binary(op, a, b) =>
      DimensionCongruence(a, u, v);
      DimensionCongruence(b, u, v);
      OpCongruence(op, Dimension(a, u).value, Dimension(b, u).value, Dimension(a, v).value, Dimension(b, v).value, b);
  }

  lemma {:induction false} SelfClose(u: CompoundUnit)
    ensures Close(u, u)
  {
  }

  lemma {:induction false} CloseChain(a: CompoundUnit, b: CompoundUnit, c: CompoundUnit)
    requires Close(a, b)
    ensures Close(a, c) <==> Close(b, c)
    ensures Close(b, a)
  {
  }

  /** Only the declared units of its variables matter to the unit of an expression. */
  lemma {:induction false} DimIsCongruence(e: Expr, u: UnitEnv, v: UnitEnv, d: CompoundUnit)
    requires CloseEnvs(Names(e), u, v)
    ensures DimIs(e, u, d) <==> DimIs(e, v, d)
  {
    hide Dimension, Close;
    forall a, b ensures Close(a, b) <==> Close(b, a) { CloseSwap(a, b); }
    if Dimension(e, u).Ok? {
      DimensionCongruence(e, u, v);
      CloseChain(Dimension(e, u).value, Dimension(e, v).value, d);
    } else if Dimension(e, v).Ok? {
      DimensionCongruence(e, v, u);
    }
  }

  lemma {:induction false} CloseSwap(a: CompoundUnit, b: CompoundUnit)
    ensures Close(a, b) <==> Close(b, a)
  {
  }

  // --- what the checks establish -------------------------------------------------------------

  /** A relationship as it was checked: closed over its children's units, which the child nodes carry. */
  ghost predicate Checked(nodes: seq<Node>, r: Relationship) {
    && |r.childUnits| == |r.children|
    && |InOrder(r.expression)| == |r.childUnits|
    && var d := Dimension(r.expression, Bind(InOrder(r.expression), r.childUnits));
    && d.Ok? && Close(d.value, r.parentUnit.unit)
    && forall i :: 0 <= i < |r.children| ==>
      1 <= r.children[i] <= |nodes| && nodes[r.children[i] - 1].unit == Some(r.childUnits[i])
  }

  ghost predicate AllChecked(t: Tree) {
    forall k :: 0 <= k < |t.relationships| ==> Checked(t.nodes, t.relationships[k])
  }

  lemma {:induction false} CheckedStays(nodes: seq<Node>, more: seq<Node>, r: Relationship)
    requires Checked(nodes, r) && |nodes| <= |more| && forall i :: 0 <= i < |nodes| ==> more[i].unit == nodes[i].unit
    ensures Checked(more, r)
  {
    hide Close, Dimension, Bind, InOrder;
  }

  function NewRelationship(t: Tree, r: Request): Relationship {
    Relationship(t.relationshipSequence + 1, r.target, r.parentUnit, r.expression,
                 Range(t.nodeSequence + 1, |r.childUnits|), r.childUnits)
  }

  lemma {:induction false} NewIsChecked(t: Tree, r: Request, nodes: seq<Node>)
    requires t.nodeSequence == |t.nodes| && Closes(r) && NewNodes(t.nodes, nodes, r.target, r.childUnits)
    ensures Checked(nodes, NewRelationship(t, r))
  {
    hide Close, Dimension, Bind, InOrder;
    var m := NewRelationship(t, r);
    forall i | 0 <= i < |m.children|
      ensures 1 <= m.children[i] <= |nodes| && nodes[m.children[i] - 1].unit == Some(m.childUnits[i])
    {
      assert m.children[i] - 1 == |t.nodes| + i;
    }
  }

  lemma {:induction false} GrownChecked(t: Tree, r: Request, alternativeOf: Option<nat>, redundant: bool)
    requires TreeOk(t) && t.branches != [] && AllChecked(t) && Closes(r) && 1 <= r.target <= |t.nodes|
    ensures AllChecked(Grow(t, r, alternativeOf, redundant))
  {
    hide Grow, NodesOk, ExpansionsOk, BranchesOk, PrunedOk, Checked, Closes;
    var u := Grow(t, r, alternativeOf, redundant);
    GrownNodes(t, r, alternativeOf, redundant);
    GrownRelationships(t, r, alternativeOf, redundant);
    NewIsChecked(t, r, u.nodes);
    forall k | 0 <= k < |u.relationships| ensures Checked(u.nodes, u.relationships[k]) {
      if k < |t.relationships| {
        assert Checked(t.nodes, t.relationships[k]);
        CheckedStays(t.nodes, u.nodes, t.relationships[k]);
      } else {
        assert u.relationships[k] == NewRelationship(t, r);
      }
    }
  }

  lemma {:induction false} ExpandChecked(t: Tree, r: Request, alternativeOf: Option<nat>, redundant: bool)
    requires TreeOk(t) && t.branches != [] && AllChecked(t) && Expand(t, r, alternativeOf, redundant).Ok?
    ensures AllChecked(Expand(t, r, alternativeOf, redundant).value)
  {
    NodesNumbered(t);
    FindNodeExactly(t.nodes, 0, r.target);
    hide TreeOk, Grow, Closes, FindNode;
    if Closes(r) {
      GrownChecked(t, r, alternativeOf, redundant);
    } else {
      assert Expand(t, r, alternativeOf, redundant).value == RegisterGap(t, UnitMismatch, r.target, true);
    }
  }

  lemma {:induction false} ActionChecked(t: Tree, a: TreeAction)
    requires TreeOk(t) && t.branches != [] && AllChecked(t)
    ensures ApplyAction(t, a).Ok? ==> AllChecked(ApplyAction(t, a).value)
  {
    hide TreeOk, Grow, AllChecked, Expand, RedundantAmong, RedundantExpansion, AnyOrphan, ExpansionsAt, OnBranch,
         CurrentBranch, PickDominant, FindRelationship, FindNode, QuestionCompletes;
    if a.AtomAction? {
      AtomChecked(t, a.node, a.claim);
    } else {
      forall alternativeOf, redundant | Expand(t, a.request, alternativeOf, redundant).Ok?
        ensures AllChecked(Expand(t, a.request, alternativeOf, redundant).value)
      {
        ExpandChecked(t, a.request, alternativeOf, redundant);
      }
      forall u | AllChecked(u) ensures AllChecked(RegisterGap(u, RedundantAlternative, a.request.target, false)) {
        GapChecked(u, a.request.target);
      }
    }
  }

  lemma {:induction false} GapChecked(t: Tree, target: nat)
    requires AllChecked(t)
    ensures AllChecked(RegisterGap(t, RedundantAlternative, target, false))
  {
    hide Checked;
  }

  lemma {:induction false} AtomChecked(t: Tree, node: nat, claim: Claim)
    requires t.branches != [] && AllChecked(t)
    ensures ApplyAction(t, AtomAction(node, claim)).Ok? ==> AllChecked(ApplyAction(t, AtomAction(node, claim)).value)
  {
    hide FindNode, QuestionCompletes, Checked;
    if ApplyAction(t, AtomAction(node, claim)).Ok? {
      var u := ApplyAction(t, AtomAction(node, claim)).value;
      forall k | 0 <= k < |u.relationships| ensures Checked(u.nodes, u.relationships[k]) {
        assert Checked(t.nodes, t.relationships[k]);
        CheckedStays(t.nodes, u.nodes, t.relationships[k]);
      }
    }
  }

  /** Every tree built by actions carries only checked relationships. */
  lemma {:induction false} RebuiltChecked(start: Tree, actions: seq<TreeAction>)
    requires TreeOk(start) && AllChecked(start) && Rebuild(start, actions).Ok?
    ensures TreeOk(Rebuild(start, actions).value) && AllChecked(Rebuild(start, actions).value)
  {
    hide TreeOk, AllChecked, ApplyAction;
    if actions != [] {
      var n := |actions| - 1;
      RebuiltChecked(start, actions[..n]);
      var t := Rebuild(start, actions[..n]).value;
      BranchesExist(t);
      ActionChecked(t, actions[n]);
    }
  }

  // --- binding by first appearance and binding by index -----------------------------------------

  /** The units of the children from `i` on, by placeholder. */
  function ChildUnits(us: seq<UnitText>, i: nat): UnitEnv
    requires i <= |us|
    decreases |us| - i
  {
    if i == |us| then map[] else ChildUnits(us, i + 1)[ChildName(i) := us[i].unit]
  }

  lemma {:induction false} ChildUnitsAt(us: seq<UnitText>, i: nat)
    requires i <= |us|
    ensures ChildUnits(us, i).Keys == Placeholders(i, |us|)
    ensures forall j :: i <= j < |us| ==>
      ChildName(j) in ChildUnits(us, i) && ChildUnits(us, i)[ChildName(j)] == us[j].unit
    decreases |us| - i
  {
    if i == |us| {
      NoPlaceholders(i);
    } else {
      ChildUnitsAt(us, i + 1);
      PlaceholdersSplit(i, |us|);
      forall j | i < j < |us| ensures ChildName(j) != ChildName(i) { NamesApart(j, i); }
      hide ChildName, Placeholders;
    }
  }

  /** What the compiler makes of a formula: every placeholder has the unit of the child it names. */
  predicate Measures(e: Expr, us: seq<UnitText>, d: CompoundUnit) {
    DimIs(e, ChildUnits(us, 0), d)
  }

  /** The index a placeholder carries. */
  function Place(x: string, n: nat): (j: nat)
    requires x in Placeholders(0, n)
    ensures j < n && ChildName(j) == x
  {
    PlaceholdersSnoc(n);
    if x == ChildName(n - 1) then n - 1 else Place(x, n - 1)
  }

  lemma {:induction false} PlaceholdersSnoc(n: nat)
    ensures n == 0 ==> Placeholders(0, n) == {}
    ensures n > 0 ==> Placeholders(0, n) == Placeholders(0, n - 1) + {ChildName(n - 1)}
  {
    hide ChildName;
    if n > 0 {
      forall x | x in Placeholders(0, n) ensures x in Placeholders(0, n - 1) + {ChildName(n - 1)} {
        var j: nat :| 0 <= j < n && x == ChildName(j);
        if j < n - 1 { assert ChildName(j) in Placeholders(0, n - 1); }
      }
    }
  }

  lemma {:induction false} InOrderNames(e: Expr)
    ensures forall x :: x in InOrder(e) <==> x in Names(e)
  {
    match e
    case Name(_) =>
    case Const(_) =>
    case Unary(_, a) => InOrderNames(a);
    case Binary(_, a, b) =>
      InOrderNames(a);
      InOrderNames(b);
      MergeNames(InOrder(a), InOrder(b));
  }

  lemma {:induction false} MergeNames(seen: seq<string>, more: seq<string>)
    ensures forall x :: x in Merge(seen, more) <==> x in seen || x in more
    decreases |more|
  {
    if more != [] {
      MergeNames(if more[0] in seen then seen else seen + [more[0]], more[1..]);
      assert more == [more[0]] + more[1..];
    }
  }

  /** The units in the order their placeholders first appear, which is the order the check binds them in. */
  function Rebound(names: seq<string>, us: seq<UnitText>): (r: seq<UnitText>)
    requires forall i :: 0 <= i < |names| ==> names[i] in Placeholders(0, |us|)
    ensures |r| == |names|
  {
    seq(|names|, i requires 0 <= i < |names| => us[Place(names[i], |us|)])
  }

  lemma {:induction false} BindStep(names: seq<string>, us: seq<UnitText>, k: nat)
    requires |names| == |us| && 0 < k <= |us|
    ensures Bind(names[..k], us[..k]) == Bind(names[..k - 1], us[..k - 1])[names[k - 1] := us[k - 1].unit]
  {
    assert names[..k][..k - 1] == names[..k - 1] && us[..k][..k - 1] == us[..k - 1];
  }

  lemma {:induction false} BindNone(names: seq<string>, us: seq<UnitText>)
    requires names == [] && us == []
    ensures Bind(names, us) == map[]
  {
  }

  /** Binding the reordered units by first appearance gives every placeholder its own child's unit. */
  lemma {:induction false} BindRebound(names: seq<string>, us: seq<UnitText>, more: seq<UnitText>, k: nat)
    requires forall i :: 0 <= i < |names| ==> names[i] in Placeholders(0, |us|)
    requires more == Rebound(names, us) && k <= |names|
    ensures forall x :: x in Bind(names[..k], more[..k]) <==> x in names[..k]
    ensures forall x :: x in names[..k] ==>
      x in Placeholders(0, |us|) && Bind(names[..k], more[..k])[x] == us[Place(x, |us|)].unit
  {
    hide Bind, ChildName, Placeholders, Place;
    if k == 0 {
      BindNone(names[..0], more[..0]);
    } else {
      BindRebound(names, us, more, k - 1);
      BindStep(names, more, k);
      assert names[..k] == names[..k - 1] + [names[k - 1]];
    }
  }

  lemma {:induction false} CanonicalNames(e: Expr, n: nat)
    requires CanonicalFormula(e, n)
    ensures forall i :: 0 <= i < |InOrder(e)| ==> InOrder(e)[i] in Placeholders(0, n)
  {
    InOrderNames(e);
    hide Placeholders, InOrder, Names;
  }

  /** The two bindings agree once the units are reordered. */
  lemma {:induction false} ReboundEnvs(e: Expr, us: seq<UnitText>)
    requires CanonicalFormula(e, |us|)
    requires forall i :: 0 <= i < |InOrder(e)| ==> InOrder(e)[i] in Placeholders(0, |us|)
    ensures CloseEnvs(Names(e), Bind(InOrder(e), Rebound(InOrder(e), us)), ChildUnits(us, 0))
  {
    hide Bind, ChildUnits, InOrder, Close, Names, ChildName, Place;
    var names := InOrder(e);
    var more := Rebound(names, us);
    InOrderNames(e);
    BindRebound(names, us, more, |names|);
    ChildUnitsAt(us, 0);
    assert names[..|names|] == names && more[..|names|] == more;
    var bound, scope := Bind(names, more), ChildUnits(us, 0);
    forall x | x in Names(e) ensures x in bound && x in scope && Close(bound[x], scope[x]) {
      var j := Place(x, |us|);
      SelfClose(us[j].unit);
    }
  }

  /** The request whose check tells what the compiler will make of `r` at a node of unit `d`: the child
      units in the order their placeholders appear, and the node's own unit as the unit to produce. */
  function Corrected(r: Request, d: CompoundUnit): Request
    requires CanonicalFormula(r.expression, |r.childUnits|)
  {
    CanonicalNames(r.expression, |r.childUnits|);
    r.(childUnits := Rebound(InOrder(r.expression), r.childUnits), parentUnit := UnitText("", d))
  }

  /** Bound by index, a request's formula has unit `d` exactly when the corrected request passes the check. */
  lemma {:induction false} MeasuresExactly(r: Request, d: CompoundUnit)
    requires CanonicalFormula(r.expression, |r.childUnits|)
    ensures Measures(r.expression, r.childUnits, d) <==> Closes(Corrected(r, d))
  {
    var e, us := r.expression, r.childUnits;
    CanonicalNames(e, |us|);
    ReboundEnvs(e, us);
    DimIsCongruence(e, Bind(InOrder(e), Rebound(InOrder(e), us)), ChildUnits(us, 0), d);
    hide Dimension, Bind, ChildUnits, InOrder, Placeholders, Close;
  }

  /** Placeholders appear in the order of the children they stand for. */
  predicate InChildOrder(e: Expr, n: nat) {
    && |InOrder(e)| == n
    && forall i :: 0 <= i < n ==> InOrder(e)[i] == ChildName(i)
  }

  lemma {:induction false} OrderedIsCanonical(e: Expr, n: nat)
    requires InChildOrder(e, n)
    ensures CanonicalFormula(e, n)
  {
    hide ChildName, InOrder;
    InOrderNames(e);
    forall x | x in Names(e) ensures x in Placeholders(0, n) {
      var i :| 0 <= i < n && InOrder(e)[i] == x;
      assert ChildName(i) in Placeholders(0, n);
    }
    forall x | x in Placeholders(0, n) ensures x in Names(e) {
      var j: nat :| 0 <= j < n && x == ChildName(j);
      assert InOrder(e)[j] == x;
    }
  }

  /** With placeholders in order nothing is reordered. */
  lemma {:induction false} OrderedRebound(e: Expr, us: seq<UnitText>)
    requires InChildOrder(e, |us|) && forall i :: 0 <= i < |InOrder(e)| ==> InOrder(e)[i] in Placeholders(0, |us|)
    ensures Rebound(InOrder(e), us) == us
  {
    forall i | 0 <= i < |us| ensures Place(InOrder(e)[i], |us|) == i { NamesApart(i, Place(InOrder(e)[i], |us|)); }
    hide InOrder, Placeholders, ChildName;
  }

  /** So an accepted request with its placeholders in order gives the node's unit exactly when the unit
      it says it produces is the node's. */
  lemma {:induction false} OrderedRequestExactly(r: Request, d: CompoundUnit)
    requires Closes(r) && InChildOrder(r.expression, |r.childUnits|)
    ensures Measures(r.expression, r.childUnits, d) <==> Close(r.parentUnit.unit, d)
  {
    var e, us := r.expression, r.childUnits;
    OrderedIsCanonical(e, |us|);
    CanonicalNames(e, |us|);
    OrderedRebound(e, us);
    MeasuresExactly(r, d);
    CloseChain(Dimension(e, Bind(InOrder(e), us)).value, r.parentUnit.unit, d);
    hide Dimension, Bind, InOrder, Placeholders, Close, InChildOrder, CanonicalFormula;
  }
}
