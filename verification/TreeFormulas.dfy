/** What a run of actions brings into the tree's formulas, and what follows for the compiled branch. */
module TreeFormulas {
  import opened Wrappers
  import opened Expressions
  import opened Trees
  import Signatures
  import opened TreeShape
  import opened TreePruning
  import opened Flatten
  import opened FlattenMeaning
  import opened TreeActions
  import opened TreeRefinement

  /** A condition on a formula, its number of children, and whether it competes as an alternative. */
  type Condition = (Expr, nat, bool) -> bool

  /** Every formula of the tree meets a condition. */
  ghost predicate EveryFormula(t: Tree, keep: Condition) {
    forall k :: 0 <= k < |t.relationships| && k < |t.expansions| ==>
      keep(t.relationships[k].expression, |t.relationships[k].children|, t.expansions[k].alternativeOf.Some?)
  }

  /** The action brings no formula, or one that meets the condition; it competes if its node is expanded. */
  ghost predicate Brings(t: Tree, a: TreeAction, keep: Condition) {
    a.AtomAction? || keep(a.request.expression, |a.request.childUnits|, IsTarget(t.expansions, a.request.target))
  }

  /** So does each action of a run, in the tree it is made in. */
  ghost predicate BringsAt(start: Tree, actions: seq<TreeAction>, k: nat, keep: Condition)
    requires TreeOk(start) && k < |actions|
  {
    Rebuild(start, actions[..k]).Ok? ==> Brings(Rebuild(start, actions[..k]).value, actions[k], keep)
  }

  ghost predicate RunBrings(start: Tree, actions: seq<TreeAction>, keep: Condition)
    requires TreeOk(start)
  {
    forall k: nat :: k < |actions| ==> BringsAt(start, actions, k, keep)
  }

  ghost predicate KeepsFormulas(t: Tree, u: Tree, keep: Condition) {
    EveryFormula(u, keep) && u.printer == t.printer
  }

  lemma {:induction false} GrowEvery(t: Tree, r: Request, alternativeOf: Option<nat>, redundant: bool, keep: Condition)
    requires TreeOk(t) && t.branches != [] && EveryFormula(t, keep)
    requires keep(r.expression, |r.childUnits|, alternativeOf.Some?)
    ensures KeepsFormulas(t, Grow(t, r, alternativeOf, redundant), keep)
  {
    GrownRelationships(t, r, alternativeOf, redundant);
    GrownExpansionList(t, r, alternativeOf, redundant);
    RelationshipsNumbered(t);
    GrowKeepsPrinter(t, r, alternativeOf, redundant);
    hide TreeOk, Grow;
  }

  lemma {:induction false} GrowKeepsPrinter(t: Tree, r: Request, alternativeOf: Option<nat>, redundant: bool)
    requires t.branches != []
    ensures Grow(t, r, alternativeOf, redundant).printer == t.printer
  {
    hide Materialise, Restatus, CurrentBranch;
  }

  lemma {:induction false} ActionEvery(t: Tree, a: TreeAction, keep: Condition)
    requires TreeOk(t) && t.branches != [] && EveryFormula(t, keep) && Brings(t, a, keep)
    ensures ApplyAction(t, a).Ok? ==> KeepsFormulas(t, ApplyAction(t, a).value, keep)
  {
    if a.AtomAction? {
      AtomEvery(t, a.node, a.claim, keep);
    } else if ApplyAction(t, a).Ok? {
      var alternativeOf, redundant := ActionGrows(t, a);
      GrowEvery(t, a.request, alternativeOf, redundant, keep);
      GapEvery(Grow(t, a.request, alternativeOf, redundant), a.request.target, keep);
      hide TreeOk, Grow, ApplyAction, EveryFormula, IsTarget;
    }
  }

  lemma {:induction false} GapEvery(t: Tree, target: nat, keep: Condition)
    requires EveryFormula(t, keep)
    ensures KeepsFormulas(t, RegisterGap(t, RedundantAlternative, target, false), keep)
  {
  }

  lemma {:induction false} AtomEvery(t: Tree, node: nat, claim: Claim, keep: Condition)
    requires t.branches != [] && EveryFormula(t, keep)
    ensures ApplyAction(t, AtomAction(node, claim)).Ok? ==>
      KeepsFormulas(t, ApplyAction(t, AtomAction(node, claim)).value, keep)
  {
    hide FindNode, QuestionCompletes;
  }

  /** Whatever every requested formula meets, every formula of the built tree meets. */
  lemma {:induction false} RebuiltEvery(start: Tree, actions: seq<TreeAction>, keep: Condition)
    requires TreeOk(start) && EveryFormula(start, keep) && RunBrings(start, actions, keep)
    requires Rebuild(start, actions).Ok?
    ensures TreeOk(Rebuild(start, actions).value) && KeepsFormulas(start, Rebuild(start, actions).value, keep)
  {
    hide TreeOk, EveryFormula, ApplyAction, Brings;
    if actions != [] {
      var n := |actions| - 1;
      forall k: nat | k < n ensures BringsAt(start, actions[..n], k, keep) {
        assert BringsAt(start, actions, k, keep);
        assert actions[..n][..k] == actions[..k];
      }
      RebuiltEvery(start, actions[..n], keep);
      assert BringsAt(start, actions, n, keep);
      var t := Rebuild(start, actions[..n]).value;
      BranchesExist(t);
      ActionEvery(t, actions[n], keep);
    }
  }

  /** Every tree built from requests that came through the parser holds only such formulas. */
  lemma {:induction false} RebuiltPrintable(printer: Signatures.Printer, rootUnit: Option<UnitText>, incomplete: bool,
                                            actions: seq<TreeAction>)
    requires TreeOk(Create(printer, rootUnit, incomplete))
      && Rebuild(Create(printer, rootUnit, incomplete), actions).Ok?
    requires forall i :: 0 <= i < |actions| ==>
      actions[i].AtomAction? || Signatures.Printable(printer, actions[i].request.expression)
    ensures
      var t := Rebuild(Create(printer, rootUnit, incomplete), actions).value;
      TreeOk(t) && t.printer == printer && AllPrintable(t)
  {
    var keep: Condition := (e, n, alternative) => Signatures.Printable(printer, e);
    var start := Create(printer, rootUnit, incomplete);
    assert EveryFormula(start, keep);
    forall k: nat | k < |actions| ensures BringsAt(start, actions, k, keep) {}
    RebuiltEvery(start, actions, keep);
    RelationshipsNumbered(Rebuild(start, actions).value);
    hide TreeOk, Create, Rebuild;
  }

  // --- canonical runs --------------------------------------------------------------------------------

  /** A formula that is not an alternative names exactly its children; an alternative may be anything. */
  predicate CanonicalFirst(e: Expr, n: nat, alternative: bool) {
    alternative || CanonicalFormula(e, n)
  }

  /** The expansion the current branch uses is no alternative. */
  lemma {:induction false} ActiveIsPrimary(t: Tree, node: nat)
    requires TreeOk(t) && t.branches != [] && ActiveAt(t, node).Some?
    ensures 1 <= ActiveAt(t, node).value.id <= |t.expansions|
    ensures t.expansions[ActiveAt(t, node).value.id - 1].alternativeOf.None?
  {
    CurrentIsFirst(t);
    var line := t.branches[0].expansions;
    ActiveIsTarget(t.expansions, line, node);
    hide ActiveAt, NodesOk, ExpansionsOk, PrunedOk;
    var i :| 0 <= i < |line| && line[i] == ActiveAt(t, node).value.id;
    assert Primary(t.expansions, line[i]);
  }

  lemma {:induction false} EveryIsCanonical(t: Tree)
    requires TreeOk(t) && EveryFormula(t, CanonicalFirst)
    ensures Canonical(t)
  {
    BranchesExist(t);
    forall node: nat ensures CanonicalNode(t, node) {
      ActiveFacts(t, node);
      if ActiveAt(t, node).Some? { ActiveIsPrimary(t, node); }
    }
  }

  /** Every tree built by actions whose first expansions are canonical compiles to a flat expression with
      the tree's meaning. */
  lemma {:induction false} RebuiltTreesFlatten(printer: Signatures.Printer, rootUnit: Option<UnitText>,
                                               incomplete: bool, actions: seq<TreeAction>, leaf: Values, v: real)
    requires TreeOk(Create(printer, rootUnit, incomplete))
    requires RunBrings(Create(printer, rootUnit, incomplete), actions, CanonicalFirst)
    requires Rebuild(Create(printer, rootUnit, incomplete), actions).Ok?
    ensures
      var t := Rebuild(Create(printer, rootUnit, incomplete), actions).value;
      && TreeOk(t) && t.branches != [] && |t.nodes| >= 1 && ActiveExpression(t).Ok?
      && Names(ActiveExpression(t).value) == NodeNames(Leaves(t, 1))
      && (Eval(ActiveExpression(t).value, leaf) == Ok(v) <==> Value(t, leaf, 1) == Ok(v))
  {
    hide TreeOk, Canonical, ActiveExpression, Value, Leaves, Rebuild, RunBrings;
    var t := Rebuild(Create(printer, rootUnit, incomplete), actions).value;
    RebuiltEvery(Create(printer, rootUnit, incomplete), actions, CanonicalFirst);
    EveryIsCanonical(t);
    FlatteningPreservesMeaning(t, leaf, v);
  }
}
