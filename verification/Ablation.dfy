/** Mechanical single-variable ablation: remove a variable that is a direct term or factor. */
module Ablation {
  import opened Wrappers
  import opened Reals
  import opened Expressions

  datatype Field = Operand | Left | Right

  /** Where a variable is mentioned: its parent, the parent's field, and the path from the root. */
  datatype Site = Site(id: string, parent: Option<Expr>, field: Option<Field>, path: seq<Field>)

  datatype Reason = OccursMultipleTimes | NotDirect | OperatorNotSafe | WouldRemoveLast

  datatype Candidate = Candidate(removed: string, formula: Expr, operation: Op)

  datatype Rejection = Rejection(variable: string, reason: Reason)

  /** Every mention of a variable, in source order. */
  function NameSites(e: Expr, parent: Option<Expr>, field: Option<Field>, path: seq<Field>): seq<Site> {
    match e
    case Name(id) => [Site(id, parent, field, path)]
    case Const(_) => []
    case Unary(_, a) => NameSites(a, Some(e), Some(Operand), path + [Operand])
    case Binary(_, a, b) =>
      NameSites(a, Some(e), Some(Left), path + [Left]) + NameSites(b, Some(e), Some(Right), path + [Right])
  }

  function NodeAt(e: Expr, path: seq<Field>): Option<Expr> {
    if path == [] then Some(e)
    else
      match e
      case Unary(_, a) => if path[0] == Operand then NodeAt(a, path[1..]) else None
      case Binary(_, a, b) =>
        if path[0] == Left then NodeAt(a, path[1..])
        else if path[0] == Right then NodeAt(b, path[1..])
        else None
      case _ => None
  }

  /** The tree with the node at `path` replaced. */
  function ReplaceAt(e: Expr, path: seq<Field>, node: Expr): Expr {
    if path == [] then node
    else
      match e
      case Unary(s, a) => if path[0] == Operand then Unary(s, ReplaceAt(a, path[1..], node)) else e
      case Binary(op, a, b) =>
        if path[0] == Left then Binary(op, ReplaceAt(a, path[1..], node), b)
        else if path[0] == Right then Binary(op, a, ReplaceAt(b, path[1..], node))
        else e
      case _ => e
  }

  // --- what the sites say --------------------------------------------------------------

  function SitesOf(sites: seq<Site>, id: string): seq<Site> {
    if sites == [] then []
    else SitesOf(sites[..|sites| - 1], id) + if sites[|sites| - 1].id == id then [sites[|sites| - 1]] else []
  }

  lemma {:induction false} SitesOfConcat(s: seq<Site>, t: seq<Site>, id: string)
    ensures SitesOf(s + t, id) == SitesOf(s, id) + SitesOf(t, id)
  {
    if t == [] {
      assert s + t == s;
    } else {
      assert (s + t)[..|s + t| - 1] == s + t[..|t| - 1];
      SitesOfConcat(s, t[..|t| - 1], id);
    }
  }

  /** A site below `path` names its variable, and its parent and field are those it hangs from. */
  ghost predicate SiteOk(root: Expr, base: seq<Field>, parent: Option<Expr>, field: Option<Field>, s: Site) {
    && |base| <= |s.path| && s.path[..|base|] == base
    && NodeAt(root, s.path[|base|..]) == Some(Name(s.id))
    && (if |s.path| == |base| then s.parent == parent && s.field == field
        else s.parent == NodeAt(root, s.path[|base|..|s.path| - 1]) && s.field == Some(s.path[|s.path| - 1]))
  }

  lemma {:induction false} StepSite(e: Expr, child: Expr, f: Field, path: seq<Field>, s: Site)
    requires forall p: seq<Field> :: NodeAt(e, [f] + p) == NodeAt(child, p)
    requires SiteOk(child, path + [f], Some(e), Some(f), s)
    ensures SiteOk(e, path, None, None, s) && |s.path| > |path|
  {
    var n := |path|;
    assert s.path[..n] == path by { assert s.path[..n + 1][..n] == path; }
    assert s.path[n..] == [f] + s.path[n + 1..] by { assert s.path[..n + 1][n] == f; }
    if |s.path| == n + 1 {
      assert s.path[n..|s.path| - 1] == [];
      assert s.path[n] == f;
    } else {
      assert s.path[n..|s.path| - 1] == [f] + s.path[n + 1..|s.path| - 1] by { assert s.path[..n + 1][n] == f; }
    }
  }

  lemma {:induction false} SitesAreOk(e: Expr, parent: Option<Expr>, field: Option<Field>, path: seq<Field>, s: Site)
    requires s in NameSites(e, parent, field, path)
    ensures SiteOk(e, path, parent, field, s)
  {
    match e
    case Name(_) =>
    case Const(_) =>
    case Unary(_, a) =>
      SitesAreOk(a, Some(e), Some(Operand), path + [Operand], s);
      StepSite(e, a, Operand, path, s);
    case Binary(_, a, b) =>
      if s in NameSites(a, Some(e), Some(Left), path + [Left]) {
        SitesAreOk(a, Some(e), Some(Left), path + [Left], s);
        StepSite(e, a, Left, path, s);
      } else {
        SitesAreOk(b, Some(e), Some(Right), path + [Right], s);
        StepSite(e, b, Right, path, s);
      }
  }

  /** Each occurrence has its site. */
  lemma {:induction false} SitesCount(e: Expr, parent: Option<Expr>, field: Option<Field>, path: seq<Field>, id: string)
    ensures |SitesOf(NameSites(e, parent, field, path), id)| == Occurrences(e, id)
  {
    match e
    case Name(_) => assert [Site(e.id, parent, field, path)][..0] == [];
    case Const(_) =>
    case Unary(_, a) => SitesCount(a, Some(e), Some(Operand), path + [Operand], id);
    case Binary(_, a, b) =>
      SitesCount(a, Some(e), Some(Left), path + [Left], id);
      SitesCount(b, Some(e), Some(Right), path + [Right], id);
      SitesOfConcat(NameSites(a, Some(e), Some(Left), path + [Left]),
        NameSites(b, Some(e), Some(Right), path + [Right]), id);
  }

  lemma {:induction false} SitesOfMember(sites: seq<Site>, id: string, s: Site)
    requires s in SitesOf(sites, id)
    ensures s in sites && s.id == id
  {
    if sites != [] && !(sites[|sites| - 1].id == id && s == sites[|sites| - 1]) {
      SitesOfMember(sites[..|sites| - 1], id, s);
    }
  }

  // --- what removal means ------------------------------------------------------------------

  /** The operator the variable is a direct operand of, searching left to right. */
  function DirectOp(e: Expr, id: string): Option<Op> {
    match e
    case Unary(_, a) => DirectOp(a, id)
    case Binary(op, a, b) =>
      if a == Name(id) || b == Name(id) then Some(op)
      else if DirectOp(a, id).Some? then DirectOp(a, id)
      else DirectOp(b, id)
    case _ => None
  }

  lemma {:induction false} DirectMeansNamed(e: Expr, id: string)
    requires DirectOp(e, id).Some?
    ensures Occurrences(e, id) > 0
  {
    match e
    case Unary(_, a) => DirectMeansNamed(a, id);
    case Binary(op, a, b) =>
      if !(a == Name(id) || b == Name(id)) {
        if DirectOp(a, id).Some? { DirectMeansNamed(a, id); } else { DirectMeansNamed(b, id); }
      }
  }

  /** A variable mentioned once hangs from the operator `DirectOp` finds, if from an operator at all. */
  lemma {:induction false} ParentIsDirectOp(e: Expr, id: string, path: seq<Field>)
    requires Occurrences(e, id) == 1 && path != [] && NodeAt(e, path) == Some(Name(id))
    ensures NodeAt(e, path[..|path| - 1]).Some?
    ensures
      var parent := NodeAt(e, path[..|path| - 1]).value;
      DirectOp(e, id) == if parent.Binary? then Some(parent.op) else None
  {
    var rest := path[1..];
    if |path| == 1 {
      assert path[..0] == [];
      if e.Binary? {
        assert e.left == Name(id) || e.right == Name(id);
      }
    } else {
      assert path[..|path| - 1][0] == path[0] && path[..|path| - 1][1..] == rest[..|rest| - 1];
      match e
      case Unary(_, a) => ParentIsDirectOp(a, id, rest);
      case Binary(_, a, b) =>
        var child, other := if path[0] == Left then a else b, if path[0] == Left then b else a;
        NodeNamed(child, id, rest);
        ParentIsDirectOp(child, id, rest);
        assert child != Name(id);
        if DirectOp(other, id).Some? { DirectMeansNamed(other, id); }
    }
  }

  lemma {:induction false} NodeNamed(e: Expr, id: string, path: seq<Field>)
    requires NodeAt(e, path) == Some(Name(id))
    ensures Occurrences(e, id) > 0
  {
    if path != [] {
      match e
      case Unary(_, a) => NodeNamed(a, id, path[1..]);
      case Binary(_, a, b) => NodeNamed(if path[0] == Left then a else b, id, path[1..]);
    }
  }

  function Neutral(op: Op): real {
    if op == Add then 0.0 else 1.0
  }

  function Survivor(parent: Expr, field: Field): Expr
    requires parent.Binary?
  {
    if field == Left then parent.right else parent.left
  }

  /** The site of `id` is a direct operand of the sum or product at `path[..|path| - 1]`. */
  ghost predicate RemovableAt(e: Expr, id: string, path: seq<Field>) {
    && PowerFree(e) && Occurrences(e, id) == 1 && path != [] && NodeAt(e, path) == Some(Name(id))
    && NodeAt(e, path[..|path| - 1]).Some?
    && NodeAt(e, path[..|path| - 1]).value.Binary?
    && (NodeAt(e, path[..|path| - 1]).value.op == Add || NodeAt(e, path[..|path| - 1]).value.op == Mul)
  }

  ghost function RemovedAt(e: Expr, id: string, path: seq<Field>): Expr
    requires RemovableAt(e, id, path)
  {
    ReplaceAt(e, path[..|path| - 1], Survivor(NodeAt(e, path[..|path| - 1]).value, path[|path| - 1]))
  }

  lemma {:induction false} NeutralOperand(op: Op, y: real, exponent: Expr)
    requires op == Add || op == Mul
    ensures ApplyOp(op, Neutral(op), y, exponent) == Ok(y) && ApplyOp(op, y, Neutral(op), exponent) == Ok(y)
  {
    TimesOne(y);
  }

  /** Removal at the operator itself. */
  lemma {:induction false} RemovalHere(e: Expr, id: string, field: Field, values: Values)
    requires RemovableAt(e, id, [field])
    ensures RemovedAt(e, id, [field]) == Survivor(e, field)
    ensures Eval(Survivor(e, field), values) == Eval(e, values[id := Neutral(e.op)])
    ensures Names(Survivor(e, field)) == Names(e) - {id}
  {
    assert [field][..0] == [] && [field][1..] == [];
    assert NodeAt(e, []) == Some(e) && NodeAt(e.left, []) == Some(e.left) && NodeAt(e.right, []) == Some(e.right);
    var s, v := Survivor(e, field), values[id := Neutral(e.op)];
    assert (if field == Left then e.left else e.right) == Name(id);
    assert Occurrences(e, id) == Occurrences(e.left, id) + Occurrences(e.right, id) && Occurrences(Name(id), id) == 1;
    OccursIffNamed(s, id);
    EvalCongruence(s, values, v);
    if Eval(s, values).Ok? { NeutralOperand(e.op, Eval(s, values).value, e.right); }
  }

  lemma {:induction false} RemovalDescends(e: Expr, id: string, path: seq<Field>)
    requires RemovableAt(e, id, path) && |path| > 1
    ensures e.Unary? || e.Binary?
    ensures e.Unary? ==>
      && path[0] == Operand && RemovableAt(e.operand, id, path[1..])
      && RemovedAt(e, id, path) == Unary(e.sign, RemovedAt(e.operand, id, path[1..]))
    ensures e.Binary? && path[0] == Left ==>
      && RemovableAt(e.left, id, path[1..]) && Occurrences(e.right, id) == 0
      && RemovedAt(e, id, path) == Binary(e.op, RemovedAt(e.left, id, path[1..]), e.right)
    ensures e.Binary? && path[0] != Left ==>
      && path[0] == Right && RemovableAt(e.right, id, path[1..]) && Occurrences(e.left, id) == 0
      && RemovedAt(e, id, path) == Binary(e.op, e.left, RemovedAt(e.right, id, path[1..]))
  {
    var rest := path[1..];
    assert path[..|path| - 1][0] == path[0] && path[..|path| - 1][1..] == rest[..|rest| - 1];
    assert path[|path| - 1] == rest[|rest| - 1];
    match e
    case Unary(_, a) => NodeNamed(a, id, rest);
    case Binary(_, a, b) => NodeNamed(if path[0] == Left then a else b, id, rest);
  }

  /** Ablation is substitution of the neutral element: in every environment the child evaluates as
      the parent does with the removed variable set to 0 (a term) or 1 (a factor). */
  lemma {:induction false} RemovalIsNeutral(e: Expr, id: string, path: seq<Field>, values: Values)
    requires RemovableAt(e, id, path)
    ensures Eval(RemovedAt(e, id, path), values)
            == Eval(e, values[id := Neutral(NodeAt(e, path[..|path| - 1]).value.op)])
    ensures Names(RemovedAt(e, id, path)) == Names(e) - {id}
    decreases |path|
  {
    var op := NodeAt(e, path[..|path| - 1]).value.op;
    var v := values[id := Neutral(op)];
    if |path| == 1 {
      assert path == [path[0]] && path[..0] == [];
      RemovalHere(e, id, path[0], values);
    } else {
      RemovalDescends(e, id, path);
      var rest := path[1..];
      assert path[..|path| - 1][0] == path[0] && path[..|path| - 1][1..] == rest[..|rest| - 1];
      match e
      case Unary(_, a) => RemovalIsNeutral(a, id, rest, values);
      case Binary(o, a, b) =>
        var child, other := if path[0] == Left then a else b, if path[0] == Left then b else a;
        assert NodeAt(child, rest[..|rest| - 1]).value.op == op;
        RemovalIsNeutral(child, id, rest, values);
        OccursIffNamed(other, id);
        EvalCongruence(other, values, v);
        PowerFreeOp(o, b, if path[0] == Left then b else RemovedAt(b, id, rest));
    }
  }

  /** Without powers an operator does not look at its right operand's shape. */
  lemma {:induction false} PowerFreeOp(op: Op, exponent: Expr, exponent': Expr)
    requires op != Pow
    ensures forall x, y :: ApplyOp(op, x, y, exponent) == ApplyOp(op, x, y, exponent')
  {
  }

  // --- the plan --------------------------------------------------------------------------------

  /** A candidate is what its variable's removal should be. */
  ghost predicate CandidateOk(tree: Expr, c: Candidate) {
    && Occurrences(tree, c.removed) == 1
    && DirectOp(tree, c.removed) == Some(c.operation) && (c.operation == Add || c.operation == Mul)
    && Names(c.formula) == Names(tree) - {c.removed} && Names(c.formula) != {}
    && forall values :: Eval(c.formula, values) == Eval(tree, values[c.removed := Neutral(c.operation)])
  }

  /** A rejection states the first reason that applies. */
  ghost predicate RejectionOk(tree: Expr, r: Rejection) {
    && r.variable in Names(tree)
    && match r.reason
       case OccursMultipleTimes => Occurrences(tree, r.variable) > 1
       case NotDirect => Occurrences(tree, r.variable) == 1 && DirectOp(tree, r.variable) == None
       case OperatorNotSafe =>
         Occurrences(tree, r.variable) == 1 && DirectOp(tree, r.variable).Some?
         && DirectOp(tree, r.variable) != Some(Add) && DirectOp(tree, r.variable) != Some(Mul)
       case WouldRemoveLast =>
         Occurrences(tree, r.variable) == 1 && Names(tree) == {r.variable}
         && (DirectOp(tree, r.variable) == Some(Add) || DirectOp(tree, r.variable) == Some(Mul))
  }

  /** Decide one variable from the sites recorded for it. */
  method Decide(tree: Expr, variable: string, occurrences: seq<Site>) returns (r: Result<Candidate, Rejection>)
    requires PowerFree(tree) && occurrences == SitesOf(NameSites(tree, None, None, []), variable) && occurrences != []
    ensures r.Ok? ==> r.value.removed == variable && CandidateOk(tree, r.value)
    ensures r.Err? ==> r.error.variable == variable && RejectionOk(tree, r.error)
  {
    SitesCount(tree, None, None, [], variable);
    OccursIffNamed(tree, variable);
    if |occurrences| != 1 { return Err(Rejection(variable, OccursMultipleTimes)); }
    var site := occurrences[0];
    SitesOfMember(NameSites(tree, None, None, []), variable, site);
    SitesAreOk(tree, None, None, [], site);
    var path := site.path;
    assert path[0..] == path;
    if path != [] {
      assert path[0..|path| - 1] == path[..|path| - 1];
      ParentIsDirectOp(tree, variable, path);
    }
    if site.parent.None? { return Err(Rejection(variable, NotDirect)); }
    var parent := site.parent.value;
    if !parent.Binary? || site.field == Some(Operand) {
      BinaryField(tree, path);
      return Err(Rejection(variable, NotDirect));
    }
    if parent.op != Add && parent.op != Mul { return Err(Rejection(variable, OperatorNotSafe)); }
    var survivor := if site.field == Some(Left) then parent.right else parent.left;
    var copied := ReplaceAt(tree, path[..|path| - 1], survivor);
    assert copied == RemovedAt(tree, variable, path);
    forall values ensures Eval(copied, values) == Eval(tree, values[variable := Neutral(parent.op)]) {
      RemovalIsNeutral(tree, variable, path, values);
    }
    RemovalIsNeutral(tree, variable, path, map[]);
    if Names(copied) == {} { return Err(Rejection(variable, WouldRemoveLast)); }
    return Ok(Candidate(variable, copied, parent.op));
  }

  /** A node below a binary operator is its left or right operand. */
  lemma {:induction false} BinaryField(e: Expr, path: seq<Field>)
    requires path != [] && NodeAt(e, path).Some? && NodeAt(e, path[..|path| - 1]).Some?
    ensures NodeAt(e, path[..|path| - 1]).value.Binary? ==> path[|path| - 1] != Operand
  {
    if |path| == 1 {
      assert path[..0] == [];
    } else {
      var rest := path[1..];
      assert path[..|path| - 1][0] == path[0] && path[..|path| - 1][1..] == rest[..|rest| - 1];
      match e
      case Unary(_, a) => BinaryField(a, rest);
      case Binary(_, a, b) => BinaryField(if path[0] == Left then a else b, rest);
    }
  }

  ghost function Removed(cs: seq<Candidate>): set<string> {
    set i | 0 <= i < |cs| :: cs[i].removed
  }

  ghost function Rejected(rs: seq<Rejection>): set<string> {
    set i | 0 <= i < |rs| :: rs[i].variable
  }

  ghost function SiteNames(sites: seq<Site>): set<string> {
    set i | 0 <= i < |sites| :: sites[i].id
  }

  lemma {:induction false} SitesNameVariables(e: Expr, parent: Option<Expr>, field: Option<Field>, path: seq<Field>)
    ensures SiteNames(NameSites(e, parent, field, path)) == Names(e)
  {
    match e
    case Name(id) => assert NameSites(e, parent, field, path)[0].id == id;
    case Const(_) =>
    case Unary(_, a) => SitesNameVariables(a, Some(e), Some(Operand), path + [Operand]);
    case Binary(_, a, b) =>
      SitesNameVariables(a, Some(e), Some(Left), path + [Left]);
      SitesNameVariables(b, Some(e), Some(Right), path + [Right]);
      SiteNamesConcat(NameSites(a, Some(e), Some(Left), path + [Left]),
        NameSites(b, Some(e), Some(Right), path + [Right]));
  }

  lemma {:induction false} SiteNamesConcat(s: seq<Site>, t: seq<Site>)
    ensures SiteNames(s + t) == SiteNames(s) + SiteNames(t)
  {
    forall x | x in SiteNames(s) + SiteNames(t) ensures x in SiteNames(s + t) {
      if x in SiteNames(s) {
        var i :| 0 <= i < |s| && s[i].id == x;
        assert (s + t)[i].id == x;
      } else {
        var i :| 0 <= i < |t| && t[i].id == x;
        assert (s + t)[|s| + i].id == x;
      }
    }
  }

  function Elements(names: seq<string>): set<string> {
    set x | x in names
  }

  ghost predicate Distinct(names: seq<string>) {
    forall a, b :: 0 <= a < b < |names| ==> names[a] != names[b]
  }

  lemma {:induction false} DistinctCount(names: seq<string>)
    requires Distinct(names)
    ensures |Elements(names)| == |names|
  {
    if names != [] {
      var front, last := names[..|names| - 1], names[|names| - 1];
      DistinctCount(front);
      assert Elements(names) == Elements(front) + {last} by { assert names == front + [last]; }
      assert last !in front;
    }
  }

  /** Group the sites by variable, remembering the order of first appearance. */
  method GroupSites(sites: seq<Site>) returns (byName: map<string, seq<Site>>, order: seq<string>)
    ensures forall x :: x in byName ==> byName[x] == SitesOf(sites, x) && byName[x] != []
    ensures byName.Keys == SiteNames(sites) == Elements(order)
    ensures Distinct(order)
  {
    byName, order := map[], [];
    NoSites();
    hide SitesOf, SiteNames;
    assert sites[..0] == [];
    for i := 0 to |sites|
      invariant forall x :: x in byName ==> byName[x] == SitesOf(sites[..i], x)
      invariant forall x :: x in byName <==> SitesOf(sites[..i], x) != []
      invariant byName.Keys == SiteNames(sites[..i]) == Elements(order)
      invariant Distinct(order)
    {
      var name := sites[i].id;
      NextSite(sites, i);
      if name !in byName {
        assert name !in Elements(order);
        byName := byName[name := []];
        order := order + [name];
      }
      byName := byName[name := byName[name] + [sites[i]]];
    }
    assert sites[..|sites|] == sites;
  }

  lemma {:induction false} NoSites()
    ensures SiteNames([]) == {} && forall x :: SitesOf([], x) == []
  {
  }

  lemma {:induction false} NextSite(sites: seq<Site>, i: nat)
    requires i < |sites|
    ensures SiteNames(sites[..i + 1]) == SiteNames(sites[..i]) + {sites[i].id}
    ensures forall x ::
      SitesOf(sites[..i + 1], x) == SitesOf(sites[..i], x) + if x == sites[i].id then [sites[i]] else []
  {
    assert sites[..i + 1] == sites[..i] + [sites[i]];
    SiteNamesConcat(sites[..i], [sites[i]]);
    assert SiteNames([sites[i]]) == {sites[i].id} by { assert [sites[i]][0].id == sites[i].id; }
    forall x
      ensures SitesOf(sites[..i + 1], x) == SitesOf(sites[..i], x) + if x == sites[i].id then [sites[i]] else []
    {
      assert sites[..i + 1][..i] == sites[..i];
    }
  }

  ghost predicate CandidatesOk(tree: Expr, cs: seq<Candidate>) {
    forall i :: 0 <= i < |cs| ==> CandidateOk(tree, cs[i])
  }

  ghost predicate RejectionsOk(tree: Expr, rs: seq<Rejection>) {
    forall i :: 0 <= i < |rs| ==> RejectionOk(tree, rs[i])
  }

  /** Decide every variable in turn; each lands in exactly one of the two lists. */
  method DecideAll(tree: Expr, order: seq<string>, byName: map<string, seq<Site>>)
    returns (candidates: seq<Candidate>, rejections: seq<Rejection>)
    requires PowerFree(tree) && Distinct(order)
    requires forall x :: x in order ==>
      x in byName && byName[x] == SitesOf(NameSites(tree, None, None, []), x) && byName[x] != []
    ensures CandidatesOk(tree, candidates) && RejectionsOk(tree, rejections)
    ensures Removed(candidates) + Rejected(rejections) == Elements(order) && Removed(candidates) !! Rejected(rejections)
    ensures |candidates| + |rejections| == |order|
  {
    hide CandidateOk, RejectionOk, SitesOf, NameSites, Removed, Rejected, PowerFree, Elements, Distinct;
    candidates, rejections := [], [];
    NothingDecided();
    for i := 0 to |order|
      invariant CandidatesOk(tree, candidates) && RejectionsOk(tree, rejections)
      invariant Removed(candidates) + Rejected(rejections) == Elements(order[..i])
      invariant Removed(candidates) !! Rejected(rejections)
      invariant |candidates| + |rejections| == i
    {
      NextElement(order, i);
      var decision := Decide(tree, order[i], byName[order[i]]);
      match decision
      case Ok(c) =>
        RemovedGrows(candidates, c);
        candidates := candidates + [c];
      case Err(r) =>
        RejectedGrows(rejections, r);
        rejections := rejections + [r];
    }
    assert order[..|order|] == order;
  }

  /** Every mechanically safe single-variable ablation, and a reason for every other variable:
      each variable of the formula lands in exactly one of the two lists, exactly once. */
  method PlanVariableAblations(tree: Expr) returns (candidates: seq<Candidate>, rejections: seq<Rejection>)
    requires PowerFree(tree)
    ensures CandidatesOk(tree, candidates) && RejectionsOk(tree, rejections)
    ensures Removed(candidates) + Rejected(rejections) == Names(tree) && Removed(candidates) !! Rejected(rejections)
    ensures |candidates| + |rejections| == |Names(tree)|
  {
    var sites := NameSites(tree, None, None, []);
    SitesNameVariables(tree, None, None, []);
    var byName, order := GroupSites(sites);
    DistinctCount(order);
    hide CandidatesOk, RejectionsOk, SitesOf, NameSites, Removed, Rejected, SiteNames, Names, PowerFree;
    forall x | x in order ensures x in byName { assert x in Elements(order); }
    candidates, rejections := DecideAll(tree, order, byName);
  }

  lemma {:induction false} NextElement(order: seq<string>, i: nat)
    requires i < |order| && Distinct(order)
    ensures Elements(order[..i + 1]) == Elements(order[..i]) + {order[i]} && order[i] !in Elements(order[..i])
  {
    assert order[..i + 1] == order[..i] + [order[i]];
  }

  lemma {:induction false} NothingDecided()
    ensures Removed([]) == {} && Rejected([]) == {} && Elements([]) == {}
  {
  }

  lemma {:induction false} RemovedGrows(cs: seq<Candidate>, c: Candidate)
    ensures Removed(cs + [c]) == Removed(cs) + {c.removed}
  {
    assert forall i :: 0 <= i < |cs| ==> (cs + [c])[i] == cs[i];
    assert (cs + [c])[|cs|] == c;
  }

  lemma {:induction false} RejectedGrows(rs: seq<Rejection>, r: Rejection)
    ensures Rejected(rs + [r]) == Rejected(rs) + {r.variable}
  {
    assert forall i :: 0 <= i < |rs| ==> (rs + [r])[i] == rs[i];
    assert (rs + [r])[|rs|] == r;
  }
}
