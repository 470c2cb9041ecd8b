/** Interval propagation through a declared formula: soundness, isotonicity, and the
    sensitivity loop that relies on them. */
module Intervals {
  import opened Wrappers
  import opened Reals
  import opened Expressions

  datatype Interval = Interval(lower: real, upper: real) {
    predicate Ordered() {
      lower <= upper
    }

    predicate Contains(x: real) {
      lower <= x <= upper
    }

    predicate Within(outer: Interval) {
      outer.lower <= lower && upper <= outer.upper
    }

    function Width(): real {
      upper - lower
    }
  }

  type Box = map<string, Interval>

  datatype IntervalError = MissingBounds(id: string) | ZeroInDenominator | Unsupported

  function Min(x: real, y: real): real {
    if x <= y then x else y
  }

  function Max(x: real, y: real): real {
    if x <= y then y else x
  }

  /** The least interval holding four numbers. */
  function Hull(p: real, q: real, r: real, s: real): Interval {
    Interval(Min(Min(p, q), Min(r, s)), Max(Max(p, q), Max(r, s)))
  }

  function ProductHull(a: Interval, b: Interval): Interval {
    Hull(Times(a.lower, b.lower), Times(a.lower, b.upper), Times(a.upper, b.lower), Times(a.upper, b.upper))
  }

  function QuotientHull(a: Interval, b: Interval): Interval
    requires b.lower != 0.0 && b.upper != 0.0
  {
    Hull(Over(a.lower, b.lower), Over(a.lower, b.upper), Over(a.upper, b.lower), Over(a.upper, b.upper))
  }

  function IntervalOp(op: Op, a: Interval, b: Interval): Result<Interval, IntervalError> {
    match op
    case Add => Ok(Interval(a.lower + b.lower, a.upper + b.upper))
    case Sub => Ok(Interval(a.lower - b.upper, a.upper - b.lower))
    case Mul => Ok(ProductHull(a, b))
    case Div =>  // the source's intervals are ordered by construction
      if !b.Ordered() || b.Contains(0.0) then Err(ZeroInDenominator) else Ok(QuotientHull(a, b))
    case Pow => Err(Unsupported)
  }

  function IntervalEval(e: Expr, box: Box): Result<Interval, IntervalError> {
    match e
    case Name(id) => if id in box then Ok(box[id]) else Err(MissingBounds(id))
    case Const(v) => Ok(Interval(ToReal(v), ToReal(v)))
    case Unary(sign, a) =>
      (match IntervalEval(a, box)
       case Err(x) => Err(x)
       case Ok(i) => Ok(if sign == Plus then i else Interval(-i.upper, -i.lower)))
    case Binary(op, a, b) =>
      match IntervalEval(a, box)
      case Err(x) => Err(x)
      case Ok(i) =>
        match IntervalEval(b, box)
        case Err(x) => Err(x)
        case Ok(j) => IntervalOp(op, i, j)
  }

  ghost predicate OrderedBox(box: Box) {
    forall x :: x in box ==> box[x].Ordered()
  }

  /** A point assignment inside the box, for the variables that matter. */
  ghost predicate Inside(names: set<string>, values: Values, box: Box) {
    forall x :: x in names ==> x in values && x in box && box[x].Contains(values[x])
  }

  ghost predicate SubBox(names: set<string>, inner: Box, outer: Box) {
    forall x :: x in names ==> x in inner && x in outer && inner[x].Ordered() && inner[x].Within(outer[x])
  }

  // --- products and quotients of points --------------------------------------------

  lemma {:induction false} MulMonotone(k: real, x: real, y: real)
    requires x <= y
    ensures if k >= 0.0 then Times(k, x) <= Times(k, y) else Times(k, y) <= Times(k, x)
  {
    assert Times(k, y) - Times(k, x) == k * (y - x);
  }

  /** Along a line through the origin an interior point stays between the ends. */
  lemma {:induction false} LineBetween(k: real, lo: real, hi: real, t: real)
    requires lo <= t <= hi
    ensures Min(Times(k, lo), Times(k, hi)) <= Times(k, t) <= Max(Times(k, lo), Times(k, hi))
  {
    hide Times;
    MulMonotone(k, lo, t);
    MulMonotone(k, t, hi);
  }

  lemma {:induction false} ProductInside(a: Interval, b: Interval, x: real, y: real)
    requires a.Contains(x) && b.Contains(y)
    ensures ProductHull(a, b).Contains(Times(x, y))
  {
    hide Times;
    LineBetween(y, a.lower, a.upper, x);
    LineBetween(a.lower, b.lower, b.upper, y);
    LineBetween(a.upper, b.lower, b.upper, y);
    Commute(y, a.lower);
    Commute(y, a.upper);
    Commute(y, x);
  }

  lemma {:induction false} ReciprocalGap(p: real, q: real, x: real, y: real)
    requires Times(p, x) == 1.0 && Times(q, y) == 1.0
    ensures p - q == Times(Times(p, q), y) - Times(Times(p, q), x)
  {
    hide Times;
    Associate(p, q, y);
    TimesOne(p);
    Commute(p, q);
    Associate(q, p, x);
    TimesOne(q);
  }

  lemma {:induction false} SameSign(x: real, p: real)
    requires Times(p, x) == 1.0
    ensures if x > 0.0 then p > 0.0 else x < 0.0 && p < 0.0
  {
  }

  lemma {:induction false} SameSignProduct(p: real, q: real)
    requires (p > 0.0 && q > 0.0) || (p < 0.0 && q < 0.0)
    ensures Times(p, q) > 0.0
  {
  }

  lemma {:induction false} ReciprocalOrder(x: real, y: real)
    requires x <= y && (x > 0.0 || y < 0.0)
    ensures Over(1.0, y) <= Over(1.0, x)
  {
    hide Times, Over;
    var p, q := Over(1.0, x), Over(1.0, y);
    QuotientUnique(1.0, x, p);
    QuotientUnique(1.0, y, q);
    SameSign(x, p);
    SameSign(y, q);
    SameSignProduct(p, q);
    ReciprocalGap(p, q, x, y);
    MulMonotone(Times(p, q), x, y);
  }

  lemma {:induction false} AsReciprocal(x: real, y: real)
    requires y != 0.0
    ensures Over(x, y) == Times(x, Over(1.0, y))
  {
  }

  lemma {:induction false} QuotientInside(a: Interval, b: Interval, x: real, y: real)
    requires a.Contains(x) && b.Contains(y) && !b.Contains(0.0)
    ensures y != 0.0 && b.lower != 0.0 && b.upper != 0.0 && QuotientHull(a, b).Contains(Over(x, y))
  {
    hide Times, Over;
    ReciprocalOrder(b.lower, y);
    ReciprocalOrder(y, b.upper);
    ProductInside(a, Interval(Over(1.0, b.upper), Over(1.0, b.lower)), x, Over(1.0, y));
    AsReciprocal(x, y);
    AsReciprocal(a.lower, b.lower);
    AsReciprocal(a.lower, b.upper);
    AsReciprocal(a.upper, b.lower);
    AsReciprocal(a.upper, b.upper);
  }

  /** The operators on points stay inside the operators on intervals. */
  lemma {:induction false} OpInside(op: Op, a: Interval, b: Interval, x: real, y: real, exponent: Expr)
    requires a.Contains(x) && b.Contains(y) && IntervalOp(op, a, b).Ok?
    ensures ApplyOp(op, x, y, exponent).Ok? && IntervalOp(op, a, b).value.Contains(ApplyOp(op, x, y, exponent).value)
  {
    hide Times, Over, ProductHull, QuotientHull;
    match op
    case Add =>
    case Sub =>
    case Mul => ProductInside(a, b, x, y);
    case Div => QuotientInside(a, b, x, y);
    case Pow =>
  }

  /** Every point assignment inside the variable boxes evaluates, and inside the computed interval. */
  lemma {:induction false} IntervalSound(e: Expr, box: Box, values: Values)
    requires IntervalEval(e, box).Ok? && Inside(Names(e), values, box)
    ensures Eval(e, values).Ok? && IntervalEval(e, box).value.Contains(Eval(e, values).value)
  {
    match e
    case Name(_) =>
    case Const(_) =>
    case Unary(_, a) => IntervalSound(a, box, values);
    case Binary(op, a, b) =>
      IntervalSound(a, box, values);
      IntervalSound(b, box, values);
      OpInside(op, IntervalEval(a, box).value, IntervalEval(b, box).value, Eval(a, values).value, Eval(b, values).value,
        b);
  }

  lemma {:induction false} HullWithin(p: real, q: real, r: real, s: real, outer: Interval)
    requires outer.Contains(p) && outer.Contains(q) && outer.Contains(r) && outer.Contains(s)
    ensures Hull(p, q, r, s).Within(outer) && Hull(p, q, r, s).Ordered()
  {
  }

  lemma {:induction false} OpIsotone(op: Op, a: Interval, b: Interval, a': Interval, b': Interval)
    requires IntervalOp(op, a, b).Ok? && a'.Ordered() && b'.Ordered() && a'.Within(a) && b'.Within(b)
    ensures IntervalOp(op, a', b').Ok? && IntervalOp(op, a', b').value.Ordered()
    ensures IntervalOp(op, a', b').value.Within(IntervalOp(op, a, b).value)
  {
    hide Times, Over, Hull;
    match op
    case Add =>
    case Sub =>
    case Mul =>
      ProductInside(a, b, a'.lower, b'.lower);
      ProductInside(a, b, a'.lower, b'.upper);
      ProductInside(a, b, a'.upper, b'.lower);
      ProductInside(a, b, a'.upper, b'.upper);
      HullWithin(Times(a'.lower, b'.lower), Times(a'.lower, b'.upper), Times(a'.upper, b'.lower),
        Times(a'.upper, b'.upper),
                 ProductHull(a, b));
    case Div =>
      QuotientInside(a, b, a'.lower, b'.lower);
      QuotientInside(a, b, a'.lower, b'.upper);
      QuotientInside(a, b, a'.upper, b'.lower);
      QuotientInside(a, b, a'.upper, b'.upper);
      HullWithin(Over(a'.lower, b'.lower), Over(a'.lower, b'.upper), Over(a'.upper, b'.lower), Over(a'.upper, b'.upper),
                 QuotientHull(a, b));
    case Pow =>
  }

  /** Shrinking any box shrinks the result and never introduces a zero denominator. */
  lemma {:induction false} IntervalIsotone(e: Expr, inner: Box, outer: Box)
    requires IntervalEval(e, outer).Ok? && SubBox(Names(e), inner, outer)
    ensures IntervalEval(e, inner).Ok? && IntervalEval(e, inner).value.Ordered()
    ensures IntervalEval(e, inner).value.Within(IntervalEval(e, outer).value)
  {
    match e
    case Name(_) =>
    case Const(_) =>
    case Unary(_, a) => IntervalIsotone(a, inner, outer);
    case Binary(op, a, b) =>
      IntervalIsotone(a, inner, outer);
      IntervalIsotone(b, inner, outer);
      OpIsotone(op, IntervalEval(a, outer).value, IntervalEval(b, outer).value,
                IntervalEval(a, inner).value, IntervalEval(b, inner).value);
  }

  // --- the sensitivity loop ---------------------------------------------------------

  datatype Sensitivity = Sensitivity(variable: string, potential: real, fraction: real, resolvedWidth: real)

  function Midpoint(i: Interval): Interval {
    var m := (i.lower + i.upper) / 2.0;
    Interval(m, m)
  }

  /** Resolving one variable to its midpoint gives a narrower box, so the loop never raises and
      each reported narrowing is the exact, non-negative difference of widths. */
  lemma {:induction false} ResolvingNarrows(e: Expr, box: Box, name: string)
    requires IntervalEval(e, box).Ok? && OrderedBox(box) && Names(e) <= box.Keys && name in box
    ensures IntervalEval(e, box[name := Midpoint(box[name])]).Ok?
    ensures 0.0 <= IntervalEval(e, box[name := Midpoint(box[name])]).value.Width() <= IntervalEval(e, box).value.Width()
  {
    IntervalIsotone(e, box[name := Midpoint(box[name])], box);
  }

  /** What the loop reports about one variable. */
  ghost predicate Reports(row: Sensitivity, formula: Expr, used: Box, name: string)
    requires IntervalEval(formula, used).Ok? && name in used
  {
    var target := IntervalEval(formula, used).value.Width();
    var resolved := IntervalEval(formula, used[name := Midpoint(used[name])]);
    && row.variable == name && resolved.Ok? && row.resolvedWidth == resolved.value.Width()
    && row.potential == target - row.resolvedWidth && 0.0 <= row.potential <= target
    && Times(row.fraction, target) == row.potential && 0.0 <= row.fraction <= 1.0
  }

  /** For each referenced variable, how much the target interval would narrow if it were known. */
  method SensitivityLoop(formula: Expr, referenced: seq<string>, used: Box) returns (rows: seq<Sensitivity>)
    requires OrderedBox(used) && Names(formula) <= used.Keys && IntervalEval(formula, used).Ok?
    requires forall i :: 0 <= i < |referenced| ==> referenced[i] in used
    ensures |rows| == |referenced|
    ensures forall i :: 0 <= i < |rows| ==> Reports(rows[i], formula, used, referenced[i])
  {
    rows := [];
    var target := IntervalEval(formula, used).value.Width();
    for i := 0 to |referenced|
      invariant |rows| == i
      invariant forall j :: 0 <= j < i ==> Reports(rows[j], formula, used, referenced[j])
    {
      var name := referenced[i];
      ResolvingNarrows(formula, used, name);
      var narrowed := IntervalEval(formula, used[name := Midpoint(used[name])]);
      var difference := target - narrowed.value.Width();
      var potential := if difference > 0.0 then difference else 0.0;
      var row := Sensitivity(name, potential, Fraction(potential, target), narrowed.value.Width());
      assert Reports(row, formula, used, name);
      rows := rows + [row];
    }
  }

  /** The share of the width a narrowing removes; zero for a point interval. */
  function Fraction(potential: real, width: real): (f: real)
    requires 0.0 <= potential <= width
    ensures Times(f, width) == potential && 0.0 <= f <= 1.0
  {
    if width == 0.0 then 0.0
    else
      FractionBound(potential, width);
      Over(potential, width)
  }

  lemma {:induction false} FractionBound(p: real, w: real)
    requires 0.0 <= p <= w && w > 0.0
    ensures Times(Over(p, w), w) == p && 0.0 <= Over(p, w) <= 1.0
  {
    var f := Over(p, w);
    QuotientUnique(p, w, f);
    Commute(f, w);
    if f > 1.0 {
      MulMonotone(w, 1.0, f);
      TimesOne(w);
      if Times(w, f) == w { Commute(w, 1.0); CancelRight(f, 1.0, w); }
      assert false;
    }
    if f < 0.0 {
      MulMonotone(w, f, 0.0);
      NonzeroProduct(w, f);
      assert false;
    }
  }
}
