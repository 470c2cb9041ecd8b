/** What an expansion or an alternative comes to, and what it does to the value of the tree. */
module TreeRefinement {
  import opened Wrappers
  import opened Expressions
  import opened Trees
  import opened TreeShape
  import opened TreePruning
  import opened Flatten
  import opened FlattenMeaning
  import opened TreeActions
  import Signatures

  /** The new expansion of a grown tree. */
  function NewExpansion(t: Tree, r: Request, alternativeOf: Option<nat>, redundant: bool): Expansion {
    Expansion(t.expansionSequence + 1, r.target, t.relationshipSequence + 1,
              Range(t.nodeSequence + 1, |r.childUnits|), alternativeOf, redundant)
  }

  lemma {:induction false} ActiveInGrows(es: seq<Expansion>, lineage: seq<nat>, id: nat, node: nat)
    requires forall k :: 0 <= k < |es| ==> es[k].id != id
    ensures ActiveIn(es, lineage + [id], node) == ActiveIn(es, lineage, node)
  {
    if es != [] { ActiveInGrows(es[..|es| - 1], lineage, id, node); }
  }

  lemma {:induction false} ExpansionsNumbered(t: Tree)
    requires TreeOk(t)
    ensures forall k :: 0 <= k < |t.expansions| ==> t.expansions[k].id == k + 1
    ensures t.expansionSequence == |t.expansions| == t.relationshipSequence == |t.relationships|
    ensures t.nodeSequence == |t.nodes|
  {
    forall k | 0 <= k < |t.expansions| ensures t.expansions[k].id == k + 1 { ExpansionFacts(t, k); }
    hide NodesOk, BranchesOk, PrunedOk;
  }

  lemma {:induction false} LineageBelow(t: Tree, id: nat)
    requires TreeOk(t) && t.branches != [] && id in CurrentBranch(t).expansions
    ensures id <= |t.expansions|
  {
    CurrentIsFirst(t);
    hide NodesOk, ExpansionsOk, PrunedOk;
    assert NamesExpansions(t.branches[0], t.expansions);
  }

  lemma {:induction false} GrownCurrent(t: Tree, r: Request, alternativeOf: Option<nat>, redundant: bool)
    requires TreeOk(t) && t.branches != []
    ensures var u := Grow(t, r, alternativeOf, redundant);
      && u.branches != [] && u.expansions == t.expansions + [NewExpansion(t, r, alternativeOf, redundant)]
      && CurrentBranch(u).expansions
        == if alternativeOf.Some? then CurrentBranch(t).expansions
           else CurrentBranch(t).expansions + [t.expansionSequence + 1]
  {
    GrownBranchList(t, r, alternativeOf, redundant);
    GrownExpansionList(t, r, alternativeOf, redundant);
    hide Grow, CurrentOk, ForksOk, NodesOk, ExpansionsOk, PrunedOk, CurrentBranch, NamesExpansions;
    CurrentIsFirst(t);
    assert t.branches[0].id == 1;
    CurrentIsFirst(Grow(t, r, alternativeOf, redundant));
  }

  lemma {:induction false} GrownExpansionList(t: Tree, r: Request, alternativeOf: Option<nat>, redundant: bool)
    requires t.branches != []
    ensures Grow(t, r, alternativeOf, redundant).expansions
      == t.expansions + [NewExpansion(t, r, alternativeOf, redundant)]
  {
    hide Materialise, Restatus, CurrentBranch;
  }

  /** A first expansion becomes the active one at its node; nothing else changes on the current branch. */
  lemma {:induction false} GrownActive(t: Tree, r: Request, alternativeOf: Option<nat>, redundant: bool, n: nat)
    requires TreeOk(t) && t.branches != [] && (redundant ==> alternativeOf.Some?)
    requires alternativeOf.Some? <==> IsTarget(t.expansions, r.target)
    ensures var u := Grow(t, r, alternativeOf, redundant);
      && u.branches != []
      && ActiveAt(u, n)
         == if alternativeOf.None? && n == r.target then Some(NewExpansion(t, r, alternativeOf, redundant))
            else ActiveAt(t, n)
  {
    var e := NewExpansion(t, r, alternativeOf, redundant);
    GrownCurrent(t, r, alternativeOf, redundant);
    ExpansionsNumbered(t);
    var line := CurrentBranch(t).expansions;
    if e.id in line { LineageBelow(t, e.id); }
    ActiveInGrows(t.expansions, line, e.id, n);
    assert (t.expansions + [e])[..|t.expansions|] == t.expansions;
    hide TreeOk, Grow, IsTarget, CurrentBranch;
  }

  lemma {:induction false} RelationshipStays(t: Tree, u: Tree, more: Relationship, e: Expansion)
    requires u.relationships == t.relationships + [more] && FindRelationship(t.relationships, e.relationship).Some?
    ensures FindRelationship(u.relationships, e.relationship) == FindRelationship(t.relationships, e.relationship)
  {
    FindPrefix(t.relationships, more, e.relationship);
  }

  lemma {:induction false} FindPrefix(rs: seq<Relationship>, more: Relationship, id: nat)
    requires FindRelationship(rs, id).Some?
    ensures FindRelationship(rs + [more], id) == FindRelationship(rs, id)
  {
    assert (rs + [more])[0] == rs[0] && (rs + [more])[1..] == rs[1..] + [more];
    if rs[0].id != id { FindPrefix(rs[1..], more, id); }
  }

  /** The values `u` gives are those of `t` once the expanded node is read as a leaf with its new value. */
  lemma {:induction false} GrownValue(t: Tree, r: Request, alternativeOf: Option<nat>, redundant: bool, leaf: Values,
                                      x: real, n: nat)
    requires TreeOk(t) && t.branches != [] && (redundant ==> alternativeOf.Some?) && 1 <= n <= |t.nodes|
    requires alternativeOf.Some? <==> IsTarget(t.expansions, r.target)
    requires var u := Grow(t, r, alternativeOf, redundant);
      && TreeOk(u) && u.branches != [] && |t.nodes| <= |u.nodes|
      && (alternativeOf.None? ==> 1 <= r.target <= |u.nodes| && Value(u, leaf, r.target) == Ok(x))
    ensures Value(Grow(t, r, alternativeOf, redundant), leaf, n)
         == Value(t, if alternativeOf.None? then leaf[NodeName(r.target) := x] else leaf, n)
    decreases |t.nodes| - n, 1, 0
  {
    hide TreeOk, Grow, ActiveAt, IsTarget, Bindings, FindRelationship;
    var u := Grow(t, r, alternativeOf, redundant);
    var leaf' := if alternativeOf.None? then leaf[NodeName(r.target) := x] else leaf;
    GrownActive(t, r, alternativeOf, redundant, n);
    ActiveFacts(t, n);
    if alternativeOf.None? && n == r.target {
    } else if ActiveAt(t, n).Some? {
      GrownBindings(t, r, alternativeOf, redundant, leaf, x, n, 0);
      GrownRelationships(t, r, alternativeOf, redundant);
      var m := Relationship(t.relationshipSequence + 1, r.target, r.parentUnit, r.expression,
                            Range(t.nodeSequence + 1, |r.childUnits|), r.childUnits);
      RelationshipStays(t, u, m, ActiveAt(t, n).value);
    } else {
      NamesApart(n, r.target);
    }
  }

  lemma {:induction false} GrownRelationships(t: Tree, r: Request, alternativeOf: Option<nat>, redundant: bool)
    requires t.branches != []
    ensures Grow(t, r, alternativeOf, redundant).relationships
      == t.relationships + [Relationship(t.relationshipSequence + 1, r.target, r.parentUnit, r.expression,
                                         Range(t.nodeSequence + 1, |r.childUnits|), r.childUnits)]
  {
    hide Materialise, Restatus;
  }

  lemma {:induction false} GrownBindings(t: Tree, r: Request, alternativeOf: Option<nat>, redundant: bool,
                                         leaf: Values, x: real, n: nat, i: nat)
    requires TreeOk(t) && t.branches != [] && (redundant ==> alternativeOf.Some?) && 1 <= n <= |t.nodes|
    requires alternativeOf.Some? <==> IsTarget(t.expansions, r.target)
    requires ActiveAt(t, n).Some? && i <= |ActiveAt(t, n).value.children| && !(alternativeOf.None? && n == r.target)
    requires var u := Grow(t, r, alternativeOf, redundant);
      && TreeOk(u) && u.branches != [] && |t.nodes| <= |u.nodes| && ActiveAt(u, n) == ActiveAt(t, n)
      && (alternativeOf.None? ==> 1 <= r.target <= |u.nodes| && Value(u, leaf, r.target) == Ok(x))
    ensures Bindings(Grow(t, r, alternativeOf, redundant), leaf, n, i)
         == Bindings(t, if alternativeOf.None? then leaf[NodeName(r.target) := x] else leaf, n, i)
    decreases |t.nodes| - n, 0, |ActiveAt(t, n).value.children| - i
  {
    hide TreeOk, Grow, ActiveAt, IsTarget, Value;
    var children := ActiveAt(t, n).value.children;
    if i < |children| {
      ActiveChild(t, n, i);
      GrownValue(t, r, alternativeOf, redundant, leaf, x, children[i]);
      GrownBindings(t, r, alternativeOf, redundant, leaf, x, n, i + 1);
    }
  }

  lemma {:induction false} FirstExpansion(t: Tree, r: Request)
    requires t.branches != [] && OnBranch(ExpansionsAt(t.expansions, r.target), CurrentBranch(t)) == []
    requires ExpandState(t, r).Ok? && |ExpandState(t, r).value.expansions| > |t.expansions|
    ensures ExpandState(t, r).value == Grow(t, r, None, false) && FindNode(t.nodes, r.target).Some?
  {
    hide Grow, Closes, FindNode, OnBranch, ExpansionsAt, CurrentBranch;
  }

  /** Expanding a leaf of the current branch only refines it: the tree's value is what it was with
      that leaf read at the value of its new formula. */
  lemma {:induction false} ExpansionRefines(t: Tree, r: Request, leaf: Values, x: real)
    requires TreeOk(t) && t.branches != [] && !IsTarget(t.expansions, r.target)
    requires ExpandState(t, r).Ok? && |ExpandState(t, r).value.expansions| > |t.expansions|
    ensures var u := ExpandState(t, r).value;
      && TreeOk(u) && u.branches != [] && 1 <= r.target <= |t.nodes| < |u.nodes|
      && (Value(u, leaf, r.target) == Ok(x) ==> Value(u, leaf, 1) == Value(t, leaf[NodeName(r.target) := x], 1))
  {
    hide TreeOk, Value, IsTarget, CurrentBranch, Closes, Grow;
    ExpandStateKeeps(t, r);
    OffBranchMeansUnexpanded(t, r.target);
    var u := ExpandState(t, r).value;
    FindNodeKnown(t, r.target);
    FirstExpansion(t, r);
    hide ExpandState, FindNode;
    BranchesExist(u);
    GrownSize(t, r, None, false);
    if Value(u, leaf, r.target) == Ok(x) { GrownValue(t, r, None, false, leaf, x, 1); }
  }

  lemma {:induction false} FindNodeKnown(t: Tree, id: nat)
    requires TreeOk(t)
    ensures |t.nodes| >= 1 && (FindNode(t.nodes, id).Some? <==> 1 <= id <= |t.nodes|)
  {
    NodesNumbered(t);
    OneParentless(t);
    FindNodeExactly(t.nodes, 0, id);
  }

  lemma {:induction false} GrownSize(t: Tree, r: Request, alternativeOf: Option<nat>, redundant: bool)
    requires t.branches != []
    ensures |Grow(t, r, alternativeOf, redundant).nodes| == |t.nodes| + |r.childUnits|
  {
    MaterialiseNodes(t, r.childUnits, r.target);
    hide Materialise, AttachToBranch;
  }

  /** An alternative lives on a branch of its own: whatever becomes of it, no node of the current
      branch changes its value. */
  lemma {:induction false} AlternativeKeepsMeaning(t: Tree, r: Request, leaf: Values, n: nat)
    requires TreeOk(t) && t.branches != [] && 1 <= n <= |t.nodes|
    requires ProposeAlternative(t, r).Ok?
    ensures var u := ProposeAlternative(t, r).value;
      && TreeOk(u) && u.branches != [] && n <= |u.nodes|
      && Value(u, leaf, n) == Value(t, leaf, n)
  {
    ProposeAlternativeKeeps(t, r);
    var here := ExpansionsAt(t.expansions, r.target);
    var anchor := PickDominant(here, CurrentBranch(t));
    var redundant := RedundantExpansion(t, r, anchor) || RedundantAmong(t, r, here);
    var u := ProposeAlternative(t, r).value;
    var w := Expand(t, r, Some(anchor.id), redundant).value;
    assert u == if redundant then RegisterGap(w, RedundantAlternative, r.target, false) else w;
    hide TreeOk, ProposeAlternative, Expand, Value, RedundantExpansion, RedundantAmong, IsTarget, PickDominant,
         CurrentBranch, Grow, RegisterGap,
         ExpansionsAt, Anchors;
    DominantIsCandidate(here, CurrentBranch(t));
    AnchorFacts(t, r.target, anchor);
    ExpandKeeps(t, r, Some(anchor.id), redundant);
    ExpandShape(t, r, Some(anchor.id), redundant);
    BranchesExist(w);
    if w == Grow(t, r, Some(anchor.id), redundant) {
      GrownSize(t, r, Some(anchor.id), redundant);
      GrownValue(t, r, Some(anchor.id), redundant, leaf, 0.0, n);
    } else {
      GapKeepsValue(t, UnitMismatch, r.target, true, leaf, n);
    }
    if redundant { GapKeepsValue(w, RedundantAlternative, r.target, false, leaf, n); }
  }

  lemma {:induction false} GapKeepsValue(t: Tree, kind: GapKind, target: nat, blocking: bool, leaf: Values, n: nat)
    requires TreeOk(t) && t.branches != [] && 1 <= n <= |t.nodes|
    ensures var u := RegisterGap(t, kind, target, blocking);
      && TreeOk(u) && u.branches != [] && |u.nodes| == |t.nodes| && Value(u, leaf, n) == Value(t, leaf, n)
    decreases |t.nodes| - n, 1, 0
  {
    hide TreeOk, Bindings, FindRelationship;
    var u := RegisterGap(t, kind, target, blocking);
    GapOk(t, kind, target, blocking);
    assert ActiveAt(u, n) == ActiveAt(t, n);
    if ActiveAt(t, n).Some? { GapKeepsBindings(t, kind, target, blocking, leaf, n, 0); }
  }

  lemma {:induction false} GapKeepsBindings(t: Tree, kind: GapKind, target: nat, blocking: bool, leaf: Values, n: nat,
                                            i: nat)
    requires TreeOk(t) && t.branches != [] && 1 <= n <= |t.nodes| && ActiveAt(t, n).Some?
      && i <= |ActiveAt(t, n).value.children|
    requires var u := RegisterGap(t, kind, target, blocking); TreeOk(u) && ActiveAt(u, n) == ActiveAt(t, n)
    ensures Bindings(RegisterGap(t, kind, target, blocking), leaf, n, i) == Bindings(t, leaf, n, i)
    decreases |t.nodes| - n, 0, |ActiveAt(t, n).value.children| - i
  {
    hide TreeOk, Value, ActiveAt;
    var children := ActiveAt(t, n).value.children;
    if i < |children| {
      ActiveChild(t, n, i);
      GapKeepsValue(t, kind, target, blocking, leaf, children[i]);
      GapKeepsBindings(t, kind, target, blocking, leaf, n, i + 1);
    }
  }

  // --- redundancy --------------------------------------------------------------------------------

  /** The same child units and, up to commuted operands, the same formula. */
  predicate Rewrites(r: Request, relationship: Relationship) {
    UnitTexts(r.childUnits) == UnitTexts(relationship.childUnits)
    && Signatures.SameUpToSwaps(r.expression, relationship.expression)
  }

  ghost predicate RewritesSome(t: Tree, r: Request) {
    exists k :: 0 <= k < |t.expansions| && RewritesAt(t, r, k)
  }

  predicate RewritesAt(t: Tree, r: Request, k: nat)
    requires k < |t.expansions|
  {
    t.expansions[k].target == r.target && k < |t.relationships| && Rewrites(r, t.relationships[k])
  }

  /** Every formula in the tree came through the parser. */
  ghost predicate AllPrintable(t: Tree) {
    forall k :: 0 <= k < |t.relationships| ==> Signatures.Printable(t.printer, t.relationships[k].expression)
  }

  lemma {:induction false} RedundantExactly(t: Tree, r: Request, k: nat)
    requires TreeOk(t) && k < |t.expansions| && Signatures.PrinterOk(t.printer)
    requires Signatures.Printable(t.printer, r.expression) && AllPrintable(t)
    ensures k < |t.relationships| && (RedundantExpansion(t, r, t.expansions[k]) <==> Rewrites(r, t.relationships[k]))
  {
    ExpansionFacts(t, k);
    RelationshipsNumbered(t);
    FindRelationshipExactly(t.relationships, 0, k + 1);
    assert Signatures.Printable(t.printer, t.relationships[k].expression);
    Signatures.EquivalenceIsSound(t.printer, r.expression, t.relationships[k].expression, map[]);
    hide TreeOk, FindRelationship, UnitTexts;
  }

  /** An accepted alternative is flagged redundant exactly when it rewrites a formula already there. */
  lemma {:induction false} RedundancyIsExact(t: Tree, r: Request)
    requires TreeOk(t) && t.branches != [] && ProposeAlternative(t, r).Ok? && Signatures.PrinterOk(t.printer)
    requires Signatures.Printable(t.printer, r.expression) && AllPrintable(t)
    requires |ProposeAlternative(t, r).value.expansions| > |t.expansions|
    ensures ProposeAlternative(t, r).value.expansions[|t.expansions|].redundant <==> RewritesSome(t, r)
  {
    var here := ExpansionsAt(t.expansions, r.target);
    ExpansionsAtExactly(t.expansions, r.target);
    hide TreeOk, ExpansionsAt, Rewrites, UnitTexts, RedundantExpansion, AllPrintable;
    var anchor := PickDominant(here, CurrentBranch(t));
    DominantIsCandidate(here, CurrentBranch(t));
    var redundant := RedundantExpansion(t, r, anchor) || RedundantAmong(t, r, here);
    if redundant {
      var e := RedundantMember(t, r, here, anchor);
      var k :| 0 <= k < |t.expansions| && t.expansions[k] == e;
      RedundantExactly(t, r, k);
      assert RewritesAt(t, r, k);
    }
    if RewritesSome(t, r) {
      var k :| 0 <= k < |t.expansions| && RewritesAt(t, r, k);
      RedundantExactly(t, r, k);
      assert t.expansions[k] in here;
      var i :| 0 <= i < |here| && here[i] == t.expansions[k];
      assert RedundantAmong(t, r, here);
    }
    hide RedundantAmong, PickDominant, RewritesSome, CurrentBranch;
    AlternativeFlag(t, r, anchor, redundant);
  }

  lemma {:induction false} RedundantMember(t: Tree, r: Request, here: seq<Expansion>, anchor: Expansion)
    returns (e: Expansion)
    requires anchor in here && (RedundantExpansion(t, r, anchor) || RedundantAmong(t, r, here))
    ensures e in here && RedundantExpansion(t, r, e)
  {
    hide RedundantExpansion;
    if RedundantExpansion(t, r, anchor) {
      e := anchor;
    } else {
      var i :| 0 <= i < |here| && RedundantExpansion(t, r, here[i]);
      e := here[i];
    }
  }

  lemma {:induction false} AlternativeFlag(t: Tree, r: Request, anchor: Expansion, redundant: bool)
    requires t.branches != [] && Alternative(t, r, anchor).Ok?
    requires redundant
      == (RedundantExpansion(t, r, anchor) || RedundantAmong(t, r, ExpansionsAt(t.expansions, r.target)))
    requires |Alternative(t, r, anchor).value.expansions| > |t.expansions|
    ensures Alternative(t, r, anchor).value.expansions[|t.expansions|].redundant == redundant
  {
    hide RedundantExpansion, RedundantAmong, ExpansionsAt, FindNode, Closes, Materialise, Restatus, AnyOrphan,
         FindRelationship, CurrentBranch;
  }

  // --- what a request comes to ---------------------------------------------------------------------

  lemma {:induction false} NoOrphans(t: Tree, es: seq<Expansion>)
    requires TreeOk(t) && forall e :: e in es ==> e in t.expansions
    ensures !AnyOrphan(t, es)
    ensures forall e :: e in es ==> FindRelationship(t.relationships, e.relationship).Some?
  {
    RelationshipsNumbered(t);
    forall e | e in es ensures FindRelationship(t.relationships, e.relationship).Some? {
      var k :| 0 <= k < |t.expansions| && t.expansions[k] == e;
      ExpansionFacts(t, k);
      FindRelationshipExactly(t.relationships, 0, e.relationship);
    }
  }

  /** The node can still be expanded. */
  predicate Expandable(t: Tree, target: nat) {
    1 <= target <= |t.nodes| && !t.nodes[target - 1].status.AtomicLeaf? && !t.nodes[target - 1].status.Pruned?
  }

  lemma {:induction false} ExpandComesTo(t: Tree, r: Request, alternativeOf: Option<nat>, redundant: bool)
    requires TreeOk(t) && t.branches != []
    ensures var u := Expand(t, r, alternativeOf, redundant);
      && (u.Ok? <==> r.childUnits != [] && Expandable(t, r.target))
      && (u.Ok? && Closes(r) ==> |u.value.expansions| == |t.expansions| + 1)
      && (u.Ok? && !Closes(r) ==> u.value == RegisterGap(t, UnitMismatch, r.target, true))
  {
    FindNodeKnown(t, r.target);
    NodesNumbered(t);
    FindNodeExactly(t.nodes, 0, r.target);
    hide TreeOk, FindNode, Closes, Materialise, Restatus;
  }

  /** Only an unknown, atomic or pruned target or a childless request is refused; a request whose formula
      closes over its units adds one expansion; any other leaves the tree as it was but for its gaps. */
  lemma {:induction false} ExpansionOutcome(t: Tree, r: Request)
    requires TreeOk(t) && t.branches != []
    ensures var u := ExpandState(t, r);
      && (u.Ok? <==> r.childUnits != [] && Expandable(t, r.target))
      && (u.Ok? ==> (Closes(r) <==> |u.value.expansions| == |t.expansions| + 1))
      && (u.Ok? && !Closes(r) ==>
        && u.value.(gaps := t.gaps, gapSequence := t.gapSequence) == t
        && |u.value.gaps| > |t.gaps| && u.value.gaps[|t.gaps|].kind == UnitMismatch
        && u.value.gaps[|t.gaps|].target == r.target)
  {
    var here := ExpansionsAt(t.expansions, r.target);
    var listed := OnBranch(here, CurrentBranch(t));
    ExpansionsAtExactly(t.expansions, r.target);
    OnBranchExactly(here, CurrentBranch(t));
    NoOrphans(t, here);
    NoOrphans(t, listed);
    hide TreeOk, Closes, Expand, ExpansionsAt, OnBranch, CurrentBranch, FindRelationship, RedundantExpansion,
         RedundantAmong, AnyOrphan, Expandable;
    if listed == [] {
      ExpandComesTo(t, r, None, false);
    } else {
      assert listed[0] in listed;
      ExpandComesTo(t, r, Some(listed[0].id), RedundantExpansion(t, r, listed[0]) || RedundantAmong(t, r, here));
    }
  }

  lemma {:induction false} ExpandGrows(t: Tree, r: Request, alternativeOf: Option<nat>, redundant: bool)
    requires TreeOk(t) && t.branches != [] && Expand(t, r, alternativeOf, redundant).Ok?
    requires |Expand(t, r, alternativeOf, redundant).value.expansions| != |t.expansions|
    ensures Expandable(t, r.target) && r.childUnits != []
      && Expand(t, r, alternativeOf, redundant).value == Grow(t, r, alternativeOf, redundant)
  {
    ExpandComesTo(t, r, alternativeOf, redundant);
    ExpandShape(t, r, alternativeOf, redundant);
    hide TreeOk, Expand, Closes, Expandable, Grow;
  }

  lemma {:induction false} AlternativeGrows(t: Tree, r: Request, anchor: Expansion) returns (redundant: bool)
    requires TreeOk(t) && t.branches != [] && Alternative(t, r, anchor).Ok?
    requires |Alternative(t, r, anchor).value.expansions| != |t.expansions|
    ensures Expandable(t, r.target) && r.childUnits != []
    ensures var u, g := Alternative(t, r, anchor).value, Grow(t, r, Some(anchor.id), redundant);
      u == g || u == RegisterGap(g, RedundantAlternative, r.target, false)
  {
    hide TreeOk, Expand, Expandable, Grow, RedundantExpansion, RedundantAmong, AnyOrphan, FindRelationship;
    redundant := RedundantExpansion(t, r, anchor) || RedundantAmong(t, r, ExpansionsAt(t.expansions, r.target));
    ExpandGrows(t, r, Some(anchor.id), redundant);
  }

  /** An accepted expansion or alternative grows the tree by one expansion, on the current branch exactly
      when its node had none, and at most records one redundancy besides. */
  lemma {:induction false} ActionGrows(t: Tree, a: TreeAction) returns (alternativeOf: Option<nat>, redundant: bool)
    requires TreeOk(t) && t.branches != [] && !a.AtomAction? && ApplyAction(t, a).Ok?
    ensures Expandable(t, a.request.target) && a.request.childUnits != []
    ensures alternativeOf.Some? <==> IsTarget(t.expansions, a.request.target)
    ensures redundant ==> alternativeOf.Some?
    ensures var u, g := ApplyAction(t, a).value, Grow(t, a.request, alternativeOf, redundant);
      u == g || u == RegisterGap(g, RedundantAlternative, a.request.target, false)
  {
    var r := a.request;
    var listed := OnBranch(ExpansionsAt(t.expansions, r.target), CurrentBranch(t));
    var existing := ExpansionsAt(t.expansions, r.target);
    OffBranchMeansUnexpanded(t, r.target);
    OnBranchExactly(existing, CurrentBranch(t));
    hide TreeOk, Alternative, Expand, Expandable, Grow, IsTarget, ExpansionsAt, OnBranch, CurrentBranch, PickDominant;
    if a.ExpandAction? && listed == [] {
      ExpandGrows(t, r, None, false);
      alternativeOf, redundant := None, false;
    } else {
      var anchor := if a.ExpandAction? then listed[0] else PickDominant(existing, CurrentBranch(t));
      if a.ExpandAction? { assert listed[0] in listed; } else { DominantIsCandidate(existing, CurrentBranch(t)); }
      AnchorFacts(t, r.target, anchor);
      redundant := AlternativeGrows(t, r, anchor);
      alternativeOf := Some(anchor.id);
    }
  }
}
