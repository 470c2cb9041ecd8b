/** Corner propagation under named dependence cases, and how it relates to interval arithmetic. */
module Corners {
  import opened Wrappers
  import opened Reals
  import opened Expressions
  import opened Intervals
  import opened Dependences

  datatype Condition = Condition(id: string, lower: real, upper: real)

  /** The Cartesian product of the conditions' endpoint pairs, last condition fastest. */
  function Product(free: seq<Condition>): seq<seq<real>> {
    if free == [] then [[]]
    else
      var rest := Product(free[1..]);
      Prepend(free[0].lower, rest) + Prepend(free[0].upper, rest)
  }

  function Prepend(x: real, tuples: seq<seq<real>>): seq<seq<real>> {
    seq(|tuples|, i requires 0 <= i < |tuples| => [x] + tuples[i])
  }

  function Endpoint(c: Condition, index: nat): real {
    if index % 2 == 0 then c.lower else c.upper
  }

  /** The corner tuples one dependence case visits. */
  function CornerTuples(free: seq<Condition>, dependence: Dependence): seq<seq<real>> {
    if dependence == Positive then
      [seq(|free|, i requires 0 <= i < |free| => free[i].lower),
       seq(|free|, i requires 0 <= i < |free| => free[i].upper)]
    else if dependence == Negative && |free| > 1 then
      [seq(|free|, i requires 0 <= i < |free| => Endpoint(free[i], i)),
       seq(|free|, i requires 0 <= i < |free| => Endpoint(free[i], i + 1))]
    else Product(free)
  }

  /** Pair ids with values; a later duplicate id wins. */
  function Assign(free: seq<Condition>, values: seq<real>): Values
    requires |free| == |values|
  {
    if free == [] then map[] else map[free[0].id := values[0]] + Assign(free[1..], values[1..])
  }

  ghost predicate IsCorner(free: seq<Condition>, t: seq<real>) {
    |t| == |free| && forall i :: 0 <= i < |t| ==> t[i] == free[i].lower || t[i] == free[i].upper
  }

  lemma {:induction false} CornerSplit(free: seq<Condition>, t: seq<real>)
    requires free != [] && t != []
    ensures IsCorner(free, t) <==> (t[0] == free[0].lower || t[0] == free[0].upper) && IsCorner(free[1..], t[1..])
  {
    if |t| == |free| {
      forall i | 1 <= i < |t| ensures t[i] == t[1..][i - 1] && free[i] == free[1..][i - 1] {}
      forall i | 0 <= i < |t[1..]| ensures t[1..][i] == t[i + 1] && free[1..][i] == free[i + 1] {}
    }
  }

  lemma {:induction false} PrependExactly(x: real, tuples: seq<seq<real>>, t: seq<real>)
    ensures t in Prepend(x, tuples) <==> t != [] && t[0] == x && t[1..] in tuples
  {
    var all := Prepend(x, tuples);
    if t in all {
      var i :| 0 <= i < |all| && all[i] == t;
      assert t[1..] == tuples[i];
    }
    if t != [] && t[0] == x && t[1..] in tuples {
      var i :| 0 <= i < |tuples| && tuples[i] == t[1..];
      assert t == [x] + tuples[i];
      assert all[i] == t;
    }
  }

  /** The product enumerates every corner and nothing else. */
  lemma {:induction false} ProductIsAllCorners(free: seq<Condition>, t: seq<real>)
    ensures t in Product(free) <==> IsCorner(free, t)
  {
    if free == [] {
    } else {
      var rest := Product(free[1..]);
      PrependExactly(free[0].lower, rest, t);
      PrependExactly(free[0].upper, rest, t);
      if t != [] {
        ProductIsAllCorners(free[1..], t[1..]);
        CornerSplit(free, t);
      }
      hide Prepend;
    }
  }

  /** Every case visits corners only. */
  lemma {:induction false} TuplesAreCorners(free: seq<Condition>, dependence: Dependence)
    ensures |CornerTuples(free, dependence)| > 0
    ensures forall t :: t in CornerTuples(free, dependence) ==> IsCorner(free, t)
  {
    forall t | t in Product(free) ensures IsCorner(free, t) {
      ProductIsAllCorners(free, t);
    }
    ProductIsAllCorners(free, seq(|free|, i requires 0 <= i < |free| => free[i].lower));
  }

  ghost predicate DistinctIds(free: seq<Condition>) {
    forall i, j :: 0 <= i < j < |free| ==> free[i].id != free[j].id
  }

  lemma {:induction false} AssignAt(free: seq<Condition>, t: seq<real>, i: nat)
    requires DistinctIds(free) && |t| == |free| && i < |free|
    ensures free[i].id in Assign(free, t) && Assign(free, t)[free[i].id] == t[i]
  {
    if i > 0 {
      AssignAt(free[1..], t[1..], i - 1);
    } else if free[0].id in Assign(free[1..], t[1..]) {
      AssignKeys(free[1..], t[1..], free[0].id);
    }
  }

  lemma {:induction false} AssignKeys(free: seq<Condition>, t: seq<real>, id: string)
    requires |t| == |free|
    ensures id in Assign(free, t) <==> exists i :: 0 <= i < |free| && free[i].id == id
  {
    if free == [] {
    } else {
      AssignKeys(free[1..], t[1..], id);
      if id in Assign(free, t) && id != free[0].id {
        var i :| 0 <= i < |free[1..]| && free[1..][i].id == id;
        assert free[i + 1].id == id;
      }
      if exists i :: 0 <= i < |free| && free[i].id == id {
        var i :| 0 <= i < |free| && free[i].id == id;
        if i > 0 { assert free[1..][i - 1].id == id; }
      }
    }
  }

  // --- bounds of one dependence case -------------------------------------------------

  /** What is propagated: any function of an assignment and a case, which may fail. */
  type Evaluator = (Values, Dependence) -> Result<real, EvalError>

  /** The evaluator of a restricted formula looks at the assignment alone. */
  function ByFormula(f: Expr): Evaluator {
    (values, dependence) => Eval(f, values)
  }

  function EvalAll(evaluator: Evaluator, dependence: Dependence, free: seq<Condition>, tuples: seq<seq<real>>)
    : Result<seq<real>, EvalError>
    requires forall t :: t in tuples ==> |t| == |free|
  {
    if tuples == [] then Ok([])
    else
      match evaluator(Assign(free, tuples[0]), dependence)
      case Err(e) => Err(e)
      case Ok(v) =>
        match EvalAll(evaluator, dependence, free, tuples[1..])
        case Err(e) => Err(e)
        case Ok(vs) => Ok([v] + vs)
  }

  /** The least and greatest of a non-empty list. */
  method Extremes(values: seq<real>) returns (r: Interval)
    requires |values| > 0
    ensures r.lower in values && r.upper in values
    ensures forall v :: v in values ==> r.Contains(v)
  {
    r := Interval(values[0], values[0]);
    for i := 1 to |values|
      invariant r.lower in values && r.upper in values
      invariant forall j :: 0 <= j < i ==> r.Contains(values[j])
    {
      r := Interval(Min(r.lower, values[i]), Max(r.upper, values[i]));
    }
  }

  /** `r` is the exact range of the evaluator over the corners a dependence case visits. */
  ghost predicate IsCaseRange(evaluator: Evaluator, free: seq<Condition>, dependence: Dependence, r: Interval) {
    var tuples := CornerTuples(free, dependence);
    && (forall t :: t in tuples ==>
          && |t| == |free| && evaluator(Assign(free, t), dependence).Ok?
          && r.Contains(evaluator(Assign(free, t), dependence).value))
    && (exists t :: t in tuples && evaluator(Assign(free, t), dependence) == Ok(r.lower))
    && (exists t :: t in tuples && evaluator(Assign(free, t), dependence) == Ok(r.upper))
  }

  lemma {:induction false} EvalAllOk(evaluator: Evaluator, dependence: Dependence, free: seq<Condition>,
                                     tuples: seq<seq<real>>)
    requires forall t :: t in tuples ==> |t| == |free|
    requires EvalAll(evaluator, dependence, free, tuples).Ok?
    ensures |EvalAll(evaluator, dependence, free, tuples).value| == |tuples|
    ensures forall i :: 0 <= i < |tuples| ==>
      evaluator(Assign(free, tuples[i]), dependence) == Ok(EvalAll(evaluator, dependence, free, tuples).value[i])
  {
    if tuples == [] {
    } else {
      EvalAllOk(evaluator, dependence, free, tuples[1..]);
      forall i | 0 <= i < |tuples|
        ensures evaluator(Assign(free, tuples[i]), dependence)
          == Ok(EvalAll(evaluator, dependence, free, tuples).value[i])
      {
        if i > 0 { assert tuples[i] == tuples[1..][i - 1]; }
      }
    }
  }

  lemma {:induction false} EvalAllErr(evaluator: Evaluator, dependence: Dependence, free: seq<Condition>,
                                      tuples: seq<seq<real>>)
    requires forall t :: t in tuples ==> |t| == |free|
    requires EvalAll(evaluator, dependence, free, tuples).Err?
    ensures exists t :: t in tuples && evaluator(Assign(free, t), dependence).Err?
  {
    if evaluator(Assign(free, tuples[0]), dependence).Ok? {
      EvalAllErr(evaluator, dependence, free, tuples[1..]);
      var t :| t in tuples[1..] && evaluator(Assign(free, t), dependence).Err?;
      assert t in tuples;
    } else {
      assert tuples[0] in tuples;
    }
  }

  /** The evaluator fails at some corner of the case. */
  ghost predicate CaseFails(evaluator: Evaluator, free: seq<Condition>, dependence: Dependence) {
    exists t :: t in CornerTuples(free, dependence) && |t| == |free| && evaluator(Assign(free, t), dependence).Err?
  }

  /** One dependence case: evaluate at its corners and take the extremes. */
  method PropagateCase(evaluator: Evaluator, free: seq<Condition>, dependence: Dependence)
    returns (r: Result<Interval, EvalError>)
    ensures r.Ok? ==> IsCaseRange(evaluator, free, dependence, r.value)
    ensures r.Err? <==> CaseFails(evaluator, free, dependence)
  {
    TuplesAreCorners(free, dependence);
    var tuples := CornerTuples(free, dependence);
    var values := EvalAll(evaluator, dependence, free, tuples);
    if values.Err? {
      EvalAllErr(evaluator, dependence, free, tuples);
      return Err(values.error);
    }
    EvalAllOk(evaluator, dependence, free, tuples);
    var range := Extremes(values.value);
    var i :| 0 <= i < |tuples| && values.value[i] == range.lower;
    var j :| 0 <= j < |tuples| && values.value[j] == range.upper;
    assert tuples[i] in tuples && tuples[j] in tuples;
    return Ok(range);
  }

  function Choices(c: Dependence): seq<Dependence> {
    if c == Unknown then [Positive, Negative, Independent] else [c]
  }

  /** Every declared case, UNKNOWN replaced by its alternatives, each once. */
  ghost predicate Expands(cases: seq<Dependence>, expanded: seq<Dependence>) {
    && Unknown !in expanded
    && (forall i, j :: 0 <= i < j < |expanded| ==> expanded[i] != expanded[j])
    && forall d :: d in expanded <==> exists c :: c in cases && d in Choices(c)
  }

  /** UNKNOWN is spelled out as three explicit alternatives; repeats are dropped. */
  method ExpandCases(cases: seq<Dependence>) returns (expanded: seq<Dependence>)
    ensures Expands(cases, expanded)
  {
    expanded := [];
    for i := 0 to |cases|
      invariant Unknown !in expanded
      invariant forall a, b :: 0 <= a < b < |expanded| ==> expanded[a] != expanded[b]
      invariant forall d :: d in expanded <==> exists c :: c in cases[..i] && d in Choices(c)
    {
      var choices := Choices(cases[i]);
      ghost var before := expanded;
      for j := 0 to |choices|
        invariant Unknown !in expanded
        invariant forall a, b :: 0 <= a < b < |expanded| ==> expanded[a] != expanded[b]
        invariant forall d :: d in expanded <==> d in before || d in choices[..j]
      {
        if choices[j] !in expanded { expanded := expanded + [choices[j]]; }
      }
      assert cases[..i + 1] == cases[..i] + [cases[i]];
      assert choices[..|choices|] == choices;
      forall d ensures d in expanded <==> exists c :: c in cases[..i + 1] && d in Choices(c) {
        if d in choices { assert cases[i] in cases[..i + 1]; }
        if exists c :: c in cases[..i + 1] && d in Choices(c) {
          var c :| c in cases[..i + 1] && d in Choices(c);
          assert c == cases[i] || c in cases[..i];
        }
      }
    }
    assert cases[..|cases|] == cases;
  }

  datatype PropagatedCase = PropagatedCase(dependence: Dependence, range: Interval)

  datatype PropagationError = NoConditions | NoCases | NotFinite(error: EvalError)

  /** One propagated case per expanded dependence, in order. */
  method PropagateExpanded(evaluator: Evaluator, conditions: seq<Condition>, expanded: seq<Dependence>)
    returns (r: Result<seq<PropagatedCase>, PropagationError>)
    ensures r.Err? <==> exists d :: d in expanded && CaseFails(evaluator, conditions, d)
    ensures r.Err? ==> r.error.NotFinite?
    ensures r.Ok? ==> |r.value| == |expanded|
    ensures r.Ok? ==> forall i :: 0 <= i < |expanded| ==>
      r.value[i].dependence == expanded[i] && IsCaseRange(evaluator, conditions, expanded[i], r.value[i].range)
  {
    hide IsCaseRange, CornerTuples, CaseFails;
    var output: seq<PropagatedCase> := [];
    for i := 0 to |expanded|
      invariant |output| == i
      invariant forall j :: 0 <= j < i ==> !CaseFails(evaluator, conditions, expanded[j])
      invariant forall j :: 0 <= j < i ==>
        output[j].dependence == expanded[j] && IsCaseRange(evaluator, conditions, expanded[j], output[j].range)
    {
      var range := PropagateCase(evaluator, conditions, expanded[i]);
      if range.Err? { return Err(NotFinite(range.error)); }
      output := output + [PropagatedCase(expanded[i], range.value)];
    }
    return Ok(output);
  }

  ghost function CasesOf(output: seq<PropagatedCase>): seq<Dependence> {
    seq(|output|, i requires 0 <= i < |output| => output[i].dependence)
  }

  /** Propagate under every explicitly named dependence case. */
  method PropagateUncertainty(evaluator: Evaluator, conditions: seq<Condition>, cases: seq<Dependence>)
    returns (r: Result<seq<PropagatedCase>, PropagationError>)
    ensures conditions == [] || cases == [] ==> r.Err?
    ensures conditions != [] && cases != [] ==>
      (r.Err? <==> exists c, d :: c in cases && d in Choices(c) && CaseFails(evaluator, conditions, d))
    ensures r.Ok? ==> Expands(cases, CasesOf(r.value))
    ensures r.Ok? ==> forall i :: 0 <= i < |r.value| ==>
      IsCaseRange(evaluator, conditions, r.value[i].dependence, r.value[i].range)
  {
    if conditions == [] { return Err(NoConditions); }
    if cases == [] { return Err(NoCases); }
    hide IsCaseRange, CaseFails, Choices;
    var expanded := ExpandCases(cases);
    r := PropagateExpanded(evaluator, conditions, expanded);
    if r.Ok? { assert CasesOf(r.value) == expanded; }
  }

  // --- corners and intervals ------------------------------------------------------------

  function BoxOf(free: seq<Condition>): Box {
    if free == [] then map[] else map[free[0].id := Interval(free[0].lower, free[0].upper)] + BoxOf(free[1..])
  }

  function Ids(free: seq<Condition>): set<string> {
    set i | 0 <= i < |free| :: free[i].id
  }

  lemma {:induction false} BoxKeys(free: seq<Condition>, id: string)
    ensures id in BoxOf(free) <==> id in Ids(free)
  {
    if free == [] {
    } else {
      BoxKeys(free[1..], id);
      if id in Ids(free) {
        var i :| 0 <= i < |free| && free[i].id == id;
        if i > 0 { assert free[1..][i - 1].id == id; assert id in Ids(free[1..]); }
      }
      if id in Ids(free[1..]) {
        var i :| 0 <= i < |free[1..]| && free[1..][i].id == id;
        assert free[i + 1].id == id;
      }
    }
  }

  lemma {:induction false} BoxAt(free: seq<Condition>, i: nat)
    requires DistinctIds(free) && i < |free|
    ensures free[i].id in BoxOf(free) && BoxOf(free)[free[i].id] == Interval(free[i].lower, free[i].upper)
  {
    if i > 0 {
      BoxAt(free[1..], i - 1);
    } else {
      BoxKeys(free[1..], free[0].id);
    }
  }

  ghost predicate WellBounded(free: seq<Condition>) {
    DistinctIds(free) && forall i :: 0 <= i < |free| ==> free[i].lower <= free[i].upper
  }

  lemma {:induction false} CornerInside(free: seq<Condition>, t: seq<real>, names: set<string>)
    requires WellBounded(free) && IsCorner(free, t) && names <= Ids(free)
    ensures Inside(names, Assign(free, t), BoxOf(free))
  {
    forall x | x in names
      ensures x in Assign(free, t) && x in BoxOf(free) && BoxOf(free)[x].Contains(Assign(free, t)[x])
    {
      var i :| 0 <= i < |free| && free[i].id == x;
      AssignAt(free, t, i);
      BoxAt(free, i);
    }
  }

  /** Whatever the formula and the dependence case, the corner bounds lie inside the interval. */
  lemma {:induction false} CaseInsideInterval(f: Expr, free: seq<Condition>, dependence: Dependence, r: Interval)
    requires WellBounded(free) && Names(f) <= Ids(free) && IntervalEval(f, BoxOf(free)).Ok?
    requires IsCaseRange(ByFormula(f), free, dependence, r)
    ensures r.Within(IntervalEval(f, BoxOf(free)).value)
  {
    TuplesAreCorners(free, dependence);
    var tuples := CornerTuples(free, dependence);
    var t :| t in tuples && Eval(f, Assign(free, t)) == Ok(r.lower);
    var u :| u in tuples && Eval(f, Assign(free, u)) == Ok(r.upper);
    CornerInside(free, t, Names(f));
    CornerInside(free, u, Names(f));
    IntervalSound(f, BoxOf(free), Assign(free, t));
    IntervalSound(f, BoxOf(free), Assign(free, u));
  }

  // --- read-once formulas ---------------------------------------------------------------

  ghost predicate ReadOnce(e: Expr) {
    forall x :: Occurrences(e, x) <= 1
  }

  lemma {:induction false} ReadOnceOperands(op: Op, a: Expr, b: Expr)
    requires ReadOnce(Binary(op, a, b))
    ensures ReadOnce(a) && ReadOnce(b) && Names(a) !! Names(b)
  {
    forall x ensures Occurrences(a, x) + Occurrences(b, x) <= 1 {
      assert Occurrences(Binary(op, a, b), x) <= 1;
    }
    forall x | x in Names(a) ensures x !in Names(b) {
      OccursIffNamed(a, x);
      OccursIffNamed(b, x);
    }
  }

  /** Every variable sits at one of its two bounds. */
  ghost predicate AtCorner(names: set<string>, v: Values, box: Box) {
    v.Keys == names && forall x :: x in names ==> x in box && (v[x] == box[x].lower || v[x] == box[x].upper)
  }

  /** Two corner assignments attaining the ends of an interval. */
  ghost predicate Attains(e: Expr, box: Box, lo: Values, hi: Values) {
    && IntervalEval(e, box).Ok? && AtCorner(Names(e), lo, box) && AtCorner(Names(e), hi, box)
    && Eval(e, lo) == Ok(IntervalEval(e, box).value.lower) && Eval(e, hi) == Ok(IntervalEval(e, box).value.upper)
  }

  /** Independent choices for the operands combine into one choice for the whole. */
  lemma {:induction false} Combine(op: Op, a: Expr, b: Expr, box: Box, v: Values, w: Values)
    requires Names(a) !! Names(b) && AtCorner(Names(a), v, box) && AtCorner(Names(b), w, box)
    requires Eval(a, v).Ok? && Eval(b, w).Ok?
    ensures AtCorner(Names(Binary(op, a, b)), v + w, box)
    ensures Eval(Binary(op, a, b), v + w) == ApplyOp(op, Eval(a, v).value, Eval(b, w).value, b)
  {
    EvalCongruence(a, v, v + w);
    EvalCongruence(b, w, v + w);
  }

  lemma {:induction false} HullAttained(p: real, q: real, r: real, s: real)
    ensures Hull(p, q, r, s).lower in {p, q, r, s} && Hull(p, q, r, s).upper in {p, q, r, s}
  {
  }

  /** Which end of each operand interval yields a given end of the result. */
  lemma {:induction false} OpAttained(op: Op, a: Interval, b: Interval, exponent: Expr)
    returns (la: bool, lb: bool, ha: bool, hb: bool)
    requires IntervalOp(op, a, b).Ok?
    ensures ApplyOp(op, if la then a.upper else a.lower, if lb then b.upper else b.lower, exponent)
            == Ok(IntervalOp(op, a, b).value.lower)
    ensures ApplyOp(op, if ha then a.upper else a.lower, if hb then b.upper else b.lower, exponent)
            == Ok(IntervalOp(op, a, b).value.upper)
  {
    hide Times, Over, Hull;
    match op
    case Add => la, lb, ha, hb := false, false, true, true;
    case Sub => la, lb, ha, hb := false, true, true, false;
    case Mul =>
      var p, q, r, s := Times(a.lower, b.lower), Times(a.lower, b.upper), Times(a.upper, b.lower),
        Times(a.upper, b.upper);
      HullAttained(p, q, r, s);
      var h := Hull(p, q, r, s);
      la, lb := h.lower != p && h.lower != q, if h.lower == p then false else h.lower == q || h.lower != r;
      ha, hb := h.upper != p && h.upper != q, if h.upper == p then false else h.upper == q || h.upper != r;
    case Div =>
      var p, q, r, s := Over(a.lower, b.lower), Over(a.lower, b.upper), Over(a.upper, b.lower), Over(a.upper, b.upper);
      HullAttained(p, q, r, s);
      var h := Hull(p, q, r, s);
      la, lb := h.lower != p && h.lower != q, if h.lower == p then false else h.lower == q || h.lower != r;
      ha, hb := h.upper != p && h.upper != q, if h.upper == p then false else h.upper == q || h.upper != r;
    case Pow =>
      la, lb, ha, hb := false, false, false, false;
  }

  /** A read-once formula attains both ends of its interval at corners of the box. */
  lemma {:induction false} EndsAttained(e: Expr, box: Box) returns (lo: Values, hi: Values)
    requires ReadOnce(e) && IntervalEval(e, box).Ok?
    ensures Attains(e, box, lo, hi)
  {
    match e
    case Name(id) => lo, hi := map[id := box[id].lower], map[id := box[id].upper];
    case Const(_) => lo, hi := map[], map[];
    case Unary(sign, a) =>
      forall x ensures Occurrences(a, x) <= 1 { assert Occurrences(e, x) <= 1; }
      lo, hi := EndsAttained(a, box);
      if sign == Minus { lo, hi := hi, lo; }
    case Binary(op, a, b) =>
      ReadOnceOperands(op, a, b);
      var alo, ahi := EndsAttained(a, box);
      var blo, bhi := EndsAttained(b, box);
      hide IntervalOp, ApplyOp;
      var la, lb, ha, hb := OpAttained(op, IntervalEval(a, box).value, IntervalEval(b, box).value, b);
      var v, w := if la then ahi else alo, if lb then bhi else blo;
      Combine(op, a, b, box, v, w);
      lo := v + w;
      v, w := if ha then ahi else alo, if hb then bhi else blo;
      Combine(op, a, b, box, v, w);
      hi := v + w;
  }

  /** A corner assignment of the formula's variables is part of a full corner tuple. */
  lemma {:induction false} ExtendCorner(f: Expr, free: seq<Condition>, v: Values) returns (t: seq<real>)
    requires WellBounded(free) && Names(f) <= Ids(free) && AtCorner(Names(f), v, BoxOf(free))
    ensures t in Product(free) && |t| == |free| && Eval(f, Assign(free, t)) == Eval(f, v)
  {
    t := seq(|free|, i requires 0 <= i < |free| => if free[i].id in v then v[free[i].id] else free[i].lower);
    forall i | 0 <= i < |t| ensures t[i] == free[i].lower || t[i] == free[i].upper {
      BoxAt(free, i);
    }
    ProductIsAllCorners(free, t);
    forall x | x in Names(f) ensures x in Assign(free, t) && Assign(free, t)[x] == v[x] {
      var i :| 0 <= i < |free| && free[i].id == x;
      AssignAt(free, t, i);
    }
    EvalCongruence(f, Assign(free, t), v);
  }

  /** Exactness: for a formula that mentions each variable once, interval arithmetic and the full
      corner enumeration compute the same bounds. */
  lemma {:induction false} ReadOnceExact(f: Expr, free: seq<Condition>, r: Interval)
    requires ReadOnce(f) && WellBounded(free) && Names(f) <= Ids(free) && IntervalEval(f, BoxOf(free)).Ok?
    ensures IsCaseRange(ByFormula(f), free, Independent, IntervalEval(f, BoxOf(free)).value)
    ensures IsCaseRange(ByFormula(f), free, Independent, r) ==> r == IntervalEval(f, BoxOf(free)).value
  {
    var box, i := BoxOf(free), IntervalEval(f, BoxOf(free)).value;
    var lo, hi := EndsAttained(f, box);
    var t := ExtendCorner(f, free, lo);
    var u := ExtendCorner(f, free, hi);
    TuplesAreCorners(free, Independent);
    assert CornerTuples(free, Independent) == Product(free);
    forall c | c in Product(free)
      ensures Eval(f, Assign(free, c)).Ok? && i.Contains(Eval(f, Assign(free, c)).value)
    {
      CornerInside(free, c, Names(f));
      IntervalSound(f, box, Assign(free, c));
    }
    if IsCaseRange(ByFormula(f), free, Independent, r) {
      CaseInsideInterval(f, free, Independent, r);
      assert r.Contains(i.lower) && r.Contains(i.upper);
    }
  }

  /** The evaluator looks at the assignment alone, as every restricted formula does. */
  ghost predicate IgnoresCase(evaluator: Evaluator) {
    forall values, d, d' :: evaluator(values, d) == evaluator(values, d')
  }

  lemma {:induction false} FormulaIgnoresCase(f: Expr)
    ensures IgnoresCase(ByFormula(f))
  {
  }

  /** Positive and negative dependence never widen what full independence allows, whatever is evaluated. */
  lemma {:induction false} DependenceInsideIndependent(evaluator: Evaluator, free: seq<Condition>,
                                                       dependence: Dependence, r: Interval, full: Interval)
    requires IgnoresCase(evaluator)
    requires IsCaseRange(evaluator, free, dependence, r) && IsCaseRange(evaluator, free, Independent, full)
    ensures r.Within(full)
  {
    var tuples := CornerTuples(free, dependence);
    TuplesAreCorners(free, dependence);
    var t :| t in tuples && evaluator(Assign(free, t), dependence) == Ok(r.lower);
    var u :| u in tuples && evaluator(Assign(free, u), dependence) == Ok(r.upper);
    ProductIsAllCorners(free, t);
    ProductIsAllCorners(free, u);
    assert CornerTuples(free, Independent) == Product(free);
    assert evaluator(Assign(free, t), Independent) == Ok(r.lower);
    assert evaluator(Assign(free, u), Independent) == Ok(r.upper);
    hide CornerTuples, Product, Assign;
  }

  /** If independence is evaluable at every corner, so is every other case. */
  lemma {:induction false} IndependentSuffices(evaluator: Evaluator, free: seq<Condition>, dependence: Dependence)
    requires IgnoresCase(evaluator) && CaseFails(evaluator, free, dependence)
    ensures CaseFails(evaluator, free, Independent)
  {
    TuplesAreCorners(free, dependence);
    var t :| t in CornerTuples(free, dependence) && |t| == |free| && evaluator(Assign(free, t), dependence).Err?;
    ProductIsAllCorners(free, t);
    assert CornerTuples(free, Independent) == Product(free);
    assert evaluator(Assign(free, t), Independent).Err?;
  }

  const SELF_DIFFERENCE := Binary(Sub, Name("x"), Name("x"))

  lemma {:induction false} SelfDifference(v: Values, box: Box)
    requires "x" in v && "x" in box && box["x"] == Interval(0.0, 1.0)
    ensures Eval(SELF_DIFFERENCE, v) == Ok(0.0) && IntervalEval(SELF_DIFFERENCE, box) == Ok(Interval(-1.0, 1.0))
  {
  }

  /** Read-once is needed: `x - x` over [0, 1] has corners at zero only, but a two-unit-wide interval. */
  lemma {:induction false} RepeatedVariableIsInexact(c: Condition)
    requires c == Condition("x", 0.0, 1.0)
    ensures IntervalEval(SELF_DIFFERENCE, BoxOf([c])) == Ok(Interval(-1.0, 1.0))
    ensures IsCaseRange(ByFormula(SELF_DIFFERENCE), [c], Independent, Interval(0.0, 0.0))
  {
    BoxAt([c], 0);
    TuplesAreCorners([c], Independent);
    hide CornerTuples, BoxOf, Assign, Eval, IntervalEval;
    forall t | t in CornerTuples([c], Independent)
      ensures |t| == 1 && Eval(SELF_DIFFERENCE, Assign([c], t)) == Ok(0.0)
      ensures IntervalEval(SELF_DIFFERENCE, BoxOf([c])) == Ok(Interval(-1.0, 1.0))
    {
      AssignAt([c], t, 0);
      SelfDifference(Assign([c], t), BoxOf([c]));
    }
    var t := CornerTuples([c], Independent)[0];
    assert t in CornerTuples([c], Independent);
  }
}
