/** Dimension checking of restricted expressions, and why it is worth having: a checked
    expression rescales exactly as its dimension says. */
module Dimensions {
  import opened Wrappers
  import opened Reals
  import opened Expressions
  import opened Units

  type UnitEnv = map<string, CompoundUnit>

  datatype DimensionError = UnknownVariable(id: string) | Mismatch | BadExponent

  function DimensionOfOp(op: Op, a: CompoundUnit, b: CompoundUnit, exponent: Expr)
    : Result<CompoundUnit, DimensionError>
  {
    match op
    case Add => if Close(a, b) then Ok(a) else Err(Mismatch)
    case Sub => if Close(a, b) then Ok(a) else Err(Mismatch)
    case Mul => Ok(Multiply(a, b))
    case Div => Ok(Divide(a, b))
    case Pow =>
      if !(exponent.Const? && exponent.value.IntNum?) then Err(DimensionError.BadExponent)
      else Ok(Power(a, exponent.value.n))
  }

  /** The compound unit of an expression, or why it has none. */
  function Dimension(e: Expr, units: UnitEnv): Result<CompoundUnit, DimensionError> {
    match e
    case Name(id) => if id in units then Ok(units[id]) else Err(UnknownVariable(id))
    case Const(_) => Ok(DIMENSIONLESS)
    case Unary(_, a) => Dimension(a, units)
    case Binary(op, a, b) =>
      match Dimension(a, units)
      case Err(x) => Err(x)
      case Ok(u) =>
        match Dimension(b, units)
        case Err(x) => Err(x)
        case Ok(v) => DimensionOfOp(op, u, v, b)
  }

  /** Every quantity re-expressed after rescaling base units. */
  ghost function Rescale(s: Scale, labels: seq<string>, units: UnitEnv, values: Values): Values
    requires Positive(s)
  {
    map x | x in values :: if x in units then Times(values[x], Factor(s, labels, units[x])) else values[x]
  }

  /** The outcome of an evaluation, rescaled. */
  ghost function RescaleOutcome(r: Result<real, EvalError>, f: real): Result<real, EvalError> {
    match r case Err(x) => Err(x) case Ok(v) => Ok(Times(v, f))
  }

  lemma {:induction false} ScaleSum(x: real, y: real, f: real)
    ensures Times(x, f) + Times(y, f) == Times(x + y, f)
    ensures Times(x, f) - Times(y, f) == Times(x - y, f)
    ensures -Times(x, f) == Times(-x, f)
  {
  }

  lemma {:induction false} ProductScales(x: real, y: real, f: real, g: real, exponent: Expr)
    ensures ApplyOp(Mul, Times(x, f), Times(y, g), exponent)
      == RescaleOutcome(ApplyOp(Mul, x, y, exponent), Times(f, g))
  {
    hide Times;
    Regroup(x, f, y, g);
  }

  lemma {:induction false} ScaleZero(x: real, f: real)
    requires f > 0.0
    ensures Times(x, f) == 0.0 <==> x == 0.0
  {
    if x != 0.0 { NonzeroProduct(x, f); }
  }

  lemma {:induction false} ScaleQuotient(x: real, y: real, f: real, g: real, h: real)
    requires y != 0.0 && g > 0.0 && Times(h, g) == f
    ensures Times(y, g) != 0.0 && Over(Times(x, f), Times(y, g)) == Times(Over(x, y), h)
  {
    hide Times;
    NonzeroProduct(y, g);
    QuotientUnique(x, y, Over(x, y));
    Regroup(Over(x, y), h, y, g);
    QuotientUnique(Times(x, f), Times(y, g), Times(Over(x, y), h));
  }

  lemma {:induction false} OpScales(s: Scale, labels: seq<string>, op: Op, a: CompoundUnit, b: CompoundUnit,
                                    exponent: Expr, x: real, y: real)
    requires Positive(s) && DimensionOfOp(op, a, b, exponent).Ok?
    ensures
      var f, g := Factor(s, labels, a), Factor(s, labels, b);
      var d := Factor(s, labels, DimensionOfOp(op, a, b, exponent).value);
      ApplyOp(op, Times(x, f), Times(y, g), exponent) == RescaleOutcome(ApplyOp(op, x, y, exponent), d)
  {
    hide Times, Factor, IntPow;
    var f, g := Factor(s, labels, a), Factor(s, labels, b);
    FactorPositive(s, labels, a);
    FactorPositive(s, labels, b);
    match op
    case Add => FactorClose(s, labels, a, b); ScaleSum(x, y, f);
    case Sub => FactorClose(s, labels, a, b); ScaleSum(x, y, f);
    case Mul =>
      FactorMultiply(s, labels, a, b);
      ProductScales(x, y, f, g, exponent);
    case Div =>
      FactorDivide(s, labels, a, b);
      ScaleZero(y, g);
      if y != 0.0 { ScaleQuotient(x, y, f, g, Factor(s, labels, Divide(a, b))); }
    case Pow =>
      var n := exponent.value.n;
      FactorPower(s, labels, a, n);
      ScaleZero(x, f);
      if n >= 0 || x != 0.0 { IntPowProduct(x, f, n); }
  }

  /** Dimensional homogeneity: when the checker gives an expression unit D, rescaling the base
      units by any positive factors rescales its value by exactly D's factor, and it fails to
      evaluate after rescaling precisely when, and how, it failed before. */
  lemma {:induction false} Homogeneous(e: Expr, units: UnitEnv, values: Values, s: Scale, labels: seq<string>)
    requires Positive(s) && Dimension(e, units).Ok?
    ensures Eval(e, Rescale(s, labels, units, values))
            == RescaleOutcome(Eval(e, values), Factor(s, labels, Dimension(e, units).value))
  {
    hide Times, Factor, ApplyOp, DimensionOfOp;
    match e
    case Name(_) =>
    case Const(v) => FactorDimensionless(s, labels, DIMENSIONLESS); TimesOne(ToReal(v));
    case Unary(_, a) =>
      Homogeneous(a, units, values, s, labels);
      if Eval(a, values).Ok? { ScaleSum(Eval(a, values).value, 0.0, Factor(s, labels, Dimension(a, units).value)); }
    case Binary(op, a, b) =>
      Homogeneous(a, units, values, s, labels);
      Homogeneous(b, units, values, s, labels);
      if Eval(a, values).Ok? && Eval(b, values).Ok? {
        OpScales(s, labels, op, Dimension(a, units).value, Dimension(b, units).value, b,
                 Eval(a, values).value, Eval(b, values).value);
      }
  }

  /** A dimensionless expression has one value whatever the choice of base units. */
  lemma {:induction false} DimensionlessIsInvariant(e: Expr, units: UnitEnv, values: Values, s: Scale,
                                                    labels: seq<string>)
    requires Positive(s) && Dimension(e, units).Ok? && Close(Dimension(e, units).value, DIMENSIONLESS)
    ensures Eval(e, Rescale(s, labels, units, values)) == Eval(e, values)
  {
    var d := Dimension(e, units).value;
    Homogeneous(e, units, values, s, labels);
    CloseExactly(d, DIMENSIONLESS);
    FactorDimensionless(s, labels, d);
    if Eval(e, values).Ok? { TimesOne(Eval(e, values).value); }
  }

  /** A checked expression mentions only variables with a declared unit. */
  lemma {:induction false} CheckedIsClosed(e: Expr, units: UnitEnv)
    requires Dimension(e, units).Ok?
    ensures Names(e) <= units.Keys
  {
    match e
    case Name(_) =>
    case Const(_) =>
    case Unary(_, a) => CheckedIsClosed(a, units);
    case Binary(_, a, b) => CheckedIsClosed(a, units); CheckedIsClosed(b, units);
  }

  // --- rescaling tells units apart ---------------------------------------------------------------

  /** Re-expressing the quantities in other base units moves the value as a quantity of unit `d` moves. */
  ghost predicate RescalesAs(e: Expr, units: UnitEnv, values: Values, d: CompoundUnit, s: Scale, labels: seq<string>)
    requires Positive(s)
  {
    Eval(e, Rescale(s, labels, units, values)) == RescaleOutcome(Eval(e, values), Factor(s, labels, d))
  }

  /** Rescaling one base unit alone. */
  function OnlyBy(l: string, f: real): Scale {
    x => if x == l then f else 1.0
  }

  lemma {:induction false} FactorOfOne(s: Scale, l: string, u: CompoundUnit)
    requires Positive(s)
    ensures Factor(s, [l], u) == IntPow(s(l), Exponent(u, l))
  {
    assert [l][1..] == [];
    TimesOne(IntPow(s(l), Exponent(u, l)));
  }

  lemma {:induction false} PowersOfTwoGrow(m: int, n: int)
    requires m < n
    ensures IntPow(2.0, m) < IntPow(2.0, n)
    decreases n - m
  {
    if m < n - 1 { PowersOfTwoGrow(m, n - 1); }
    IntPowPositive(2.0, n - 1);
    IntPowStep(2.0, n - 1);
    hide IntPow;
  }

  /** For one base unit: a checked formula moves as unit `d` does, by whatever factor that base unit is
      rescaled, exactly when `d` has the formula's exponent of it (or there is no nonzero value to move). */
  lemma {:induction false} RescalesExactlyIn(e: Expr, units: UnitEnv, values: Values, d: CompoundUnit, l: string)
    requires Dimension(e, units).Ok?
    ensures (forall f: real :: f > 0.0 ==> RescalesAs(e, units, values, d, OnlyBy(l, f), [l]))
       <==> (Eval(e, values).Err? || Eval(e, values) == Ok(0.0)
         || Exponent(Dimension(e, units).value, l) == Exponent(d, l))
  {
    var own := Dimension(e, units).value;
    var m, n := Exponent(own, l), Exponent(d, l);
    forall f: real | f > 0.0
      ensures Eval(e, Rescale(OnlyBy(l, f), [l], units, values)) == RescaleOutcome(Eval(e, values), IntPow(f, m))
      ensures Factor(OnlyBy(l, f), [l], d) == IntPow(f, n)
    {
      Homogeneous(e, units, values, OnlyBy(l, f), [l]);
      FactorOfOne(OnlyBy(l, f), l, own);
      FactorOfOne(OnlyBy(l, f), l, d);
    }
    hide Factor, Rescale, Eval, IntPow;
    if Eval(e, values).Ok? && Eval(e, values).value != 0.0 && m != n {
      var v, p, q := Eval(e, values).value, IntPow(2.0, m), IntPow(2.0, n);
      PowersOfTwoGrow(if m < n then m else n, if m < n then n else m);
      Commute(v, p);
      Commute(v, q);
      if Times(p, v) == Times(q, v) { CancelRight(p, q, v); }
      assert !RescalesAs(e, units, values, d, OnlyBy(l, 2.0), [l]);
    }
  }

  /** A formula with a nonzero value rescales as unit `d` does under every choice of base units exactly
      when `d` is its dimension. */
  lemma {:induction false} RescalesExactly(e: Expr, units: UnitEnv, values: Values, d: CompoundUnit)
    requires Dimension(e, units).Ok? && Eval(e, values).Ok? && Eval(e, values).value != 0.0
    ensures (forall s: Scale, labels :: Positive(s) ==> RescalesAs(e, units, values, d, s, labels))
       <==> Close(Dimension(e, units).value, d)
  {
    var own := Dimension(e, units).value;
    CloseExactly(own, d);
    hide Eval, Dimension, Close, Exponent;
    if Close(own, d) {
      forall s: Scale, labels | Positive(s) ensures RescalesAs(e, units, values, d, s, labels) {
        Homogeneous(e, units, values, s, labels);
        FactorClose(s, labels, own, d);
      }
    } else {
      var l :| Exponent(own, l) != Exponent(d, l);
      RescalesExactlyIn(e, units, values, d, l);
      var f: real :| f > 0.0 && !RescalesAs(e, units, values, d, OnlyBy(l, f), [l]);
    }
  }
}
