/** Folding tree actions into a tree. */
module TreeActions {
  import opened Wrappers
  import opened Trees
  import Signatures
  import opened TreeShape

  datatype TreeAction =
    | ExpandAction(request: Request)
    | AlternativeAction(request: Request)
    | AtomAction(node: nat, claim: Claim)

  datatype RebuildError = Refused(error: TreeError) | Unchanged | NotAtomic

  /** One action; an action that leaves no trace in the tree is an error. */
  function ApplyAction(t: Tree, a: TreeAction): Result<Tree, RebuildError>
    requires t.branches != []
  {
    match a
    case ExpandAction(r) => Grown(t, ExpandState(t, r))
    case AlternativeAction(r) => Grown(t, ProposeAlternative(t, r))
    case AtomAction(node, claim) =>
      match ProposeAtom(t, node, claim)
      case Err(e) => Err(Refused(e))
      case Ok(u) =>
        match FindNode(u.nodes, node)
        case None => Err(Refused(UnknownNode))
        case Some(n) => if n.status.AtomicLeaf? then Ok(u) else Err(NotAtomic)
  }

  function Grown(t: Tree, result: Result<Tree, TreeError>): Result<Tree, RebuildError> {
    match result
    case Err(e) => Err(Refused(e))
    case Ok(u) => if |u.expansions| == |t.expansions| then Err(Unchanged) else Ok(u)
  }

  lemma {:induction false} ActionKeeps(t: Tree, a: TreeAction)
    requires TreeOk(t)
    ensures t.branches != []
    ensures ApplyAction(t, a).Ok? ==> TreeOk(ApplyAction(t, a).value)
  {
    hide TreeOk, ExpandState, ProposeAlternative, ProposeAtom;
    match a
    case ExpandAction(r) => ExpandStateKeeps(t, r);
    case AlternativeAction(r) => ProposeAlternativeKeeps(t, r);
    case AtomAction(node, claim) => ProposeAtomKeeps(t, node, claim);
  }

  /** The tree after a run of actions, or the first refusal. */
  function Rebuild(start: Tree, actions: seq<TreeAction>): Result<Tree, RebuildError>
    requires TreeOk(start)
    ensures Rebuild(start, actions).Ok? ==> TreeOk(Rebuild(start, actions).value)
  {
    if actions == [] then Ok(start)
    else
      var n := |actions| - 1;
      match Rebuild(start, actions[..n])
      case Err(e) => Err(e)
      case Ok(t) =>
        ActionKeeps(t, actions[n]);
        ApplyAction(t, actions[n])
  }

  method RebuildTree(printer: Signatures.Printer, rootUnit: Option<UnitText>, incomplete: bool,
                     actions: seq<TreeAction>)
    returns (result: Result<Tree, RebuildError>, atoms: map<nat, Claim>)
    ensures TreeOk(Create(printer, rootUnit, incomplete))
      && result == Rebuild(Create(printer, rootUnit, incomplete), actions)
    ensures result.Ok? ==> TreeOk(result.value)
    ensures result.Ok? ==>
      forall id :: id in atoms <==> exists i :: 0 <= i < |actions| && actions[i].AtomAction? && actions[i].node == id
  {
    hide TreeOk, Create, ApplyAction;
    CreateOk(printer, rootUnit, incomplete);
    var t := Create(printer, rootUnit, incomplete);
    ghost var start := t;
    atoms := map[];
    for i := 0 to |actions|
      invariant TreeOk(t) && Rebuild(start, actions[..i]) == Ok(t)
      invariant forall id :: id in atoms <==> exists k :: 0 <= k < i && actions[k].AtomAction? && actions[k].node == id
    {
      assert actions[..i + 1][..i] == actions[..i];
      ActionKeeps(t, actions[i]);
      var next := ApplyAction(t, actions[i]);
      if next.Err? {
        RefusalIsFinal(start, actions, i + 1);
        return Err(next.error), atoms;
      }
      t := next.value;
      if actions[i].AtomAction? { atoms := atoms[actions[i].node := actions[i].claim]; }
    }
    assert actions[..|actions|] == actions;
    result := Ok(t);
  }

  lemma {:induction false} RefusalIsFinal(start: Tree, actions: seq<TreeAction>, k: nat)
    requires TreeOk(start) && k <= |actions| && Rebuild(start, actions[..k]).Err?
    ensures Rebuild(start, actions) == Err(Rebuild(start, actions[..k]).error)
    decreases |actions|
  {
    hide TreeOk, ApplyAction;
    if k == |actions| {
      assert actions[..k] == actions;
    } else {
      var before := actions[..|actions| - 1];
      assert before[..k] == actions[..k];
      RefusalIsFinal(start, before, k);
    }
  }

  /** What an accepted expansion can be. */
  lemma {:induction false} ExpandShape(t: Tree, r: Request, alternativeOf: Option<nat>, redundant: bool)
    requires t.branches != [] && Expand(t, r, alternativeOf, redundant).Ok?
    ensures var u := Expand(t, r, alternativeOf, redundant).value;
      u == Grow(t, r, alternativeOf, redundant) || u == RegisterGap(t, UnitMismatch, r.target, true)
  {
    hide Grow, FindNode, Closes;
  }
}
