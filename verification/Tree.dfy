/** The decomposition tree: immutable states, the mutations that replace them, and what they keep. */
module Trees {
  import opened Wrappers
  import opened Expressions
  import opened Units
  import opened Dimensions
  import Signatures
  import Text

  /** Identifiers are sequence numbers; these are the texts they are written as. */
  function NodeName(id: nat): string {
    "n_" + Text.Padded(id, 4)
  }

  function ChildName(i: nat): string {
    "_child_" + Text.Decimal(i)
  }

  datatype NodeStatus = Open | Expanded | AtomicLeaf | Pruned | Unresolved | Rejected

  datatype Role = RootRole | ChildRole | AtomCandidate

  /** A unit as written and as parsed. */
  datatype UnitText = UnitText(text: string, unit: CompoundUnit)

  datatype Node = Node(id: nat, status: NodeStatus, role: Role, parent: Option<nat>, unit: Option<UnitText>)

  datatype Relationship = Relationship(id: nat, parentNode: nat, parentUnit: UnitText, expression: Expr,
                                       children: seq<nat>, childUnits: seq<UnitText>)

  datatype Expansion = Expansion(id: nat, target: nat, relationship: nat, children: seq<nat>,
                                 alternativeOf: Option<nat>, redundant: bool)

  datatype Branch = Branch(id: nat, expansions: seq<nat>, divergentAt: Option<nat>)

  datatype GapKind = IncompleteRoot | UnitMismatch | RedundantAlternative | AtomRejected | UnresolvedNode

  datatype Gap = Gap(id: nat, kind: GapKind, target: nat, blocking: bool)

  /** The state; `printer` is how formulas print while comparing them, which no mutation changes. */
  datatype Tree = Tree(nodes: seq<Node>, relationships: seq<Relationship>, expansions: seq<Expansion>,
                       branches: seq<Branch>, gaps: seq<Gap>, currentBranch: Option<nat>, pruned: set<nat>,
                       questionAtomic: bool, nodeSequence: nat, relationshipSequence: nat, expansionSequence: nat,
                       branchSequence: nat, gapSequence: nat, printer: Signatures.Printer)

  /** An expansion request; `target` may name no node. */
  datatype Request = Request(target: nat, parentUnit: UnitText, expression: Expr, childUnits: seq<UnitText>)

  datatype TreeError = UnknownNode | AlreadyAtomic | AlreadyPruned | NoChildren | NothingToCompete | Orphan

  // --- lookups --------------------------------------------------------------------------------

  function FindNode(nodes: seq<Node>, id: nat): Option<Node> {
    if nodes == [] then None else if nodes[0].id == id then Some(nodes[0]) else FindNode(nodes[1..], id)
  }

  function FindRelationship(rs: seq<Relationship>, id: nat): Option<Relationship> {
    if rs == [] then None else if rs[0].id == id then Some(rs[0]) else FindRelationship(rs[1..], id)
  }

  function FindBranch(bs: seq<Branch>, id: nat): Option<Branch> {
    if bs == [] then None else if bs[0].id == id then Some(bs[0]) else FindBranch(bs[1..], id)
  }

  function ExpansionsAt(es: seq<Expansion>, node: nat): seq<Expansion> {
    if es == [] then []
    else (if es[0].target == node then [es[0]] else []) + ExpansionsAt(es[1..], node)
  }

  /** The branch named current, or the first. */
  function CurrentBranch(t: Tree): Branch
    requires t.branches != []
  {
    if t.currentBranch.None? then t.branches[0]
    else match FindBranch(t.branches, t.currentBranch.value) case Some(b) => b case None => t.branches[0]
  }

  /** The first expansion that the branch contains, else the first of all. */
  function PickDominant(candidates: seq<Expansion>, branch: Branch): Expansion
    requires candidates != []
  {
    if |candidates| == 1 then candidates[0] else FirstOn(candidates, branch, candidates[0])
  }

  function FirstOn(candidates: seq<Expansion>, branch: Branch, otherwise: Expansion): Expansion {
    if candidates == [] then otherwise
    else if candidates[0].id in branch.expansions then candidates[0]
    else FirstOn(candidates[1..], branch, otherwise)
  }

  // --- mutations ------------------------------------------------------------------------------

  function Create(printer: Signatures.Printer, rootUnit: Option<UnitText>, incomplete: bool): Tree {
    Tree([Node(1, Open, RootRole, None, rootUnit)], [], [], [Branch(1, [], None)],
         if incomplete then [Gap(1, IncompleteRoot, 1, true)] else [], Some(1), {}, false,
         1, 0, 0, 1, if incomplete then 1 else 0, printer)
  }

  function RegisterGap(t: Tree, kind: GapKind, target: nat, blocking: bool): Tree {
    t.(gaps := t.gaps + [Gap(t.gapSequence + 1, kind, target, blocking)], gapSequence := t.gapSequence + 1)
  }

  function RegisterNode(t: Tree, unit: UnitText, parent: nat): Tree {
    t.(nodes := t.nodes + [Node(t.nodeSequence + 1, Open, ChildRole, Some(parent), Some(unit))],
       nodeSequence := t.nodeSequence + 1)
  }

  function Materialise(t: Tree, units: seq<UnitText>, parent: nat): Tree
    decreases |units|
  {
    if units == [] then t else Materialise(RegisterNode(t, units[0], parent), units[1..], parent)
  }

  /** Variables in the order they first appear, left to right. */
  function InOrder(e: Expr): seq<string> {
    match e
    case Name(id) => [id]
    case Const(_) => []
    case Unary(_, a) => InOrder(a)
    case Binary(_, a, b) => Merge(InOrder(a), InOrder(b))
  }

  function Merge(seen: seq<string>, more: seq<string>): seq<string>
    decreases |more|
  {
    if more == [] then seen
    else Merge(if more[0] in seen then seen else seen + [more[0]], more[1..])
  }

  function Bind(names: seq<string>, units: seq<UnitText>): UnitEnv
    requires |names| == |units|
  {
    if names == [] then map[]
    else Bind(names[..|names| - 1], units[..|names| - 1])[names[|names| - 1] := units[|names| - 1].unit]
  }

  /** Dimensional closure: as many variables as units, bound by first appearance, giving the parent unit. */
  predicate Closes(r: Request) {
    && |InOrder(r.expression)| == |r.childUnits|
    && var d := Dimension(r.expression, Bind(InOrder(r.expression), r.childUnits));
    && d.Ok? && Close(d.value, r.parentUnit.unit)
  }

  function Range(start: nat, n: nat): (s: seq<nat>)
    ensures |s| == n && forall i :: 0 <= i < n ==> s[i] == start + i
  {
    seq(n, i requires 0 <= i < n => start + i)
  }

  function ReplaceBranch(bs: seq<Branch>, b: Branch): (r: seq<Branch>)
    ensures |r| == |bs| && forall i :: 0 <= i < |bs| ==> r[i] == if bs[i].id == b.id then b else bs[i]
  {
    seq(|bs|, i requires 0 <= i < |bs| => if bs[i].id == b.id then b else bs[i])
  }

  /** An alternative forks the current lineage into a new branch; otherwise the lineage grows. */
  function AttachToBranch(t: Tree, expansion: nat, alternative: bool): Tree
    requires t.branches != []
  {
    var current := CurrentBranch(t);
    if alternative then
      t.(branches := t.branches + [Branch(t.branchSequence + 1, current.expansions + [expansion], Some(expansion))],
         branchSequence := t.branchSequence + 1)
    else
      t.(branches := ReplaceBranch(t.branches, current.(expansions := current.expansions + [expansion])))
  }

  /** The target becomes expanded; its open children become candidates for atoms. */
  function Restatus(nodes: seq<Node>, target: nat, children: seq<nat>): (r: seq<Node>)
    ensures |r| == |nodes|
    ensures forall i :: 0 <= i < |nodes| ==>
      r[i].id == nodes[i].id && r[i].parent == nodes[i].parent && r[i].unit == nodes[i].unit
    ensures forall i :: 0 <= i < |nodes| ==> r[i].status == if nodes[i].id == target then Expanded else nodes[i].status
  {
    seq(|nodes|, i requires 0 <= i < |nodes| =>
      if nodes[i].id == target then nodes[i].(status := Expanded)
      else if nodes[i].id in children && nodes[i].status.Open? then nodes[i].(role := AtomCandidate)
      else nodes[i])
  }

  function Expand(t: Tree, r: Request, alternativeOf: Option<nat>, redundant: bool): Result<Tree, TreeError>
    requires t.branches != []
  {
    match FindNode(t.nodes, r.target)
    case None => Err(UnknownNode)
    case Some(node) =>
      if node.status.AtomicLeaf? then Err(AlreadyAtomic)
      else if node.status.Pruned? then Err(AlreadyPruned)
      else if r.childUnits == [] then Err(NoChildren)
      else if !Closes(r) then Ok(RegisterGap(t, UnitMismatch, r.target, true))
      else Ok(Grow(t, r, alternativeOf, redundant))
  }

  /** The accepted expansion: new children, their relationship, the expansion and its branch. */
  function Grow(t: Tree, r: Request, alternativeOf: Option<nat>, redundant: bool): Tree
    requires t.branches != []
  {
    var children := Range(t.nodeSequence + 1, |r.childUnits|);
    var m := Materialise(t, r.childUnits, r.target);
    var relationship := Relationship(t.relationshipSequence + 1, r.target, r.parentUnit, r.expression, children,
                                     r.childUnits);
    var expansion := Expansion(t.expansionSequence + 1, r.target, relationship.id, children, alternativeOf, redundant);
    AttachToBranch(t, expansion.id, alternativeOf.Some?).(
      nodes := Restatus(m.nodes, r.target, children),
      nodeSequence := m.nodeSequence,
      relationships := t.relationships + [relationship],
      relationshipSequence := t.relationshipSequence + 1,
      expansions := t.expansions + [expansion],
      expansionSequence := t.expansionSequence + 1)
  }

  function UnitTexts(units: seq<UnitText>): multiset<string> {
    multiset(seq(|units|, i requires 0 <= i < |units| => units[i].text))
  }

  /** Same multiset of child units and an equivalent formula. */
  predicate RedundantWith(t: Tree, r: Request, relationship: Relationship) {
    && UnitTexts(r.childUnits) == UnitTexts(relationship.childUnits)
    && Signatures.Equivalent(t.printer, r.expression, relationship.expression)
  }

  predicate RedundantAmong(t: Tree, r: Request, es: seq<Expansion>) {
    exists i :: 0 <= i < |es| && RedundantExpansion(t, r, es[i])
  }

  predicate RedundantExpansion(t: Tree, r: Request, e: Expansion) {
    var found := FindRelationship(t.relationships, e.relationship);
    found.Some? && RedundantWith(t, r, found.value)
  }

  predicate AnyOrphan(t: Tree, es: seq<Expansion>) {
    exists i :: 0 <= i < |es| && FindRelationship(t.relationships, es[i].relationship).None?
  }

  function Alternative(t: Tree, r: Request, anchor: Expansion): Result<Tree, TreeError>
    requires t.branches != []
  {
    var here := ExpansionsAt(t.expansions, r.target);
    if FindRelationship(t.relationships, anchor.relationship).None? then Err(Orphan)
    else if !RedundantExpansion(t, r, anchor) && AnyOrphan(t, here) then Err(Orphan)
    else
      var redundant := RedundantExpansion(t, r, anchor) || RedundantAmong(t, r, here);
      match Expand(t, r, Some(anchor.id), redundant)
      case Err(e) => Err(e)
      case Ok(u) => Ok(if redundant then RegisterGap(u, RedundantAlternative, r.target, false) else u)
  }

  /** Extends the current branch, or competes with the expansion the branch already has there. */
  function ExpandState(t: Tree, r: Request): Result<Tree, TreeError>
    requires t.branches != []
  {
    if r.childUnits == [] then Err(NoChildren)
    else
      var here := OnBranch(ExpansionsAt(t.expansions, r.target), CurrentBranch(t));
      if here != [] then Alternative(t, r, here[0]) else Expand(t, r, None, false)
  }

  function OnBranch(es: seq<Expansion>, branch: Branch): seq<Expansion> {
    if es == [] then []
    else (if es[0].id in branch.expansions then [es[0]] else []) + OnBranch(es[1..], branch)
  }

  function ProposeAlternative(t: Tree, r: Request): Result<Tree, TreeError>
    requires t.branches != []
  {
    if r.childUnits == [] then Err(NoChildren)
    else
      var existing := ExpansionsAt(t.expansions, r.target);
      if existing == [] then Err(NothingToCompete)
      else Alternative(t, r, PickDominant(existing, CurrentBranch(t)))
  }

  function SetStatus(nodes: seq<Node>, ids: set<nat>, status: NodeStatus): (r: seq<Node>)
    ensures |r| == |nodes|
    ensures forall i :: 0 <= i < |nodes| ==>
      r[i] == if nodes[i].id in ids then nodes[i].(status := status) else nodes[i]
  {
    seq(|nodes|, i requires 0 <= i < |nodes| => if nodes[i].id in ids then nodes[i].(status := status) else nodes[i])
  }

  // --- reachability, atoms ---------------------------------------------------------------------

  /** The parentless nodes, and both ends of every expansion on the current branch. */
  function ReachableIds(t: Tree): set<nat>
    requires t.branches != []
  {
    (set i | 0 <= i < |t.nodes| && t.nodes[i].parent.None? :: t.nodes[i].id)
    + (set k | 0 <= k < |t.expansions| && t.expansions[k].id in CurrentBranch(t).expansions :: t.expansions[k].target)
    + (set k, c | 0 <= k < |t.expansions| && t.expansions[k].id in CurrentBranch(t).expansions
                  && c in t.expansions[k].children :: c)
  }

  predicate Settled(n: Node, pruned: set<nat>) {
    n.id in pruned || n.status.AtomicLeaf? || n.status.Pruned? || n.status.Unresolved? || n.status.Rejected?
  }

  /** The question becomes atomic when it is open and everything reachable is settled. */
  predicate QuestionCompletes(t: Tree)
    requires t.branches != []
  {
    && !t.questionAtomic && ReachableIds(t) != {}
    && forall i :: 0 <= i < |t.nodes| && t.nodes[i].id in ReachableIds(t) ==> Settled(t.nodes[i], t.pruned)
  }

  /** An atomic claim: whether it validates, and the unit it declares. */
  datatype Claim = Claim(valid: bool, unit: Option<UnitText>)

  predicate ClaimMismatch(claim: Claim, node: Node) {
    claim.unit.Some? && node.unit.Some? && !Close(claim.unit.value.unit, node.unit.value.unit)
  }

  function ProposeAtom(t: Tree, node: nat, claim: Claim): Result<Tree, TreeError>
    requires t.branches != []
  {
    match FindNode(t.nodes, node)
    case None => Err(UnknownNode)
    case Some(n) =>
      if !claim.valid then Ok(RegisterGap(t, AtomRejected, node, true))
      else if ClaimMismatch(claim, n) then Ok(RegisterGap(t, UnitMismatch, node, true))
      else
        Ok(t.(nodes := SetStatus(t.nodes, {node}, AtomicLeaf),
              questionAtomic := t.questionAtomic || QuestionCompletes(t)))
  }
}
