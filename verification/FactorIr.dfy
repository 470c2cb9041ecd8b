/** The factor IR: dimensionless log-potentials and axis transforms over plain dimension maps. */
module FactorIr {
  import opened Wrappers
  import opened Reals
  import opened Expressions
  import opened Units
  import opened Dimensions

  datatype FactorError = PowerNotAllowed | Unknown(id: string) | MismatchedSum | NotDimensionless | NotOneDimension
                       | WrongAxis | Extra

  /** The dimension signature; unlike units, operands of a sum are compared as plain maps. */
  function DimensionSignature(e: Expr, dims: UnitEnv): Result<CompoundUnit, FactorError>
    requires PowerFree(e)
  {
    match e
    case Name(id) => if id in dims then Ok(dims[id]) else Err(Unknown(id))
    case Const(_) => Ok(map[])
    case Unary(_, a) => DimensionSignature(a, dims)
    case Binary(op, a, b) =>
      match DimensionSignature(a, dims)
      case Err(x) => Err(x)
      case Ok(u) =>
        match DimensionSignature(b, dims)
        case Err(x) => Err(x)
        case Ok(v) =>
          if op == Add || op == Sub then if u == v then Ok(u) else Err(MismatchedSum)
          else if op == Mul then Ok(Multiply(u, v))
          else Ok(Divide(u, v))
  }

  datatype FactorIR = FactorIR(tree: Expr, dims: UnitEnv)

  /** Accept a formula only if it is dimensionless and uses exactly the declared variables. */
  function CompileFactorIr(formula: Expr, dims: UnitEnv): Result<FactorIR, FactorError> {
    if !PowerFree(formula) then Err(PowerNotAllowed)
    else
      match DimensionSignature(formula, dims)
      case Err(x) => Err(x)
      case Ok(signature) =>
        if signature != map[] then Err(NotDimensionless)
        else if !(dims.Keys <= Names(formula)) then Err(Extra)
        else Ok(FactorIR(formula, dims))
  }

  function LogPotential(ir: FactorIR, values: Values): Result<real, EvalError> {
    Eval(ir.tree, values)
  }

  datatype AxisTransform = AxisTransform(tree: Expr, dims: UnitEnv, output: CompoundUnit, target: Option<string>)

  /** `target` is `None` for a dimensionless axis. */
  function CompileAxisTransform(formula: Expr, dims: UnitEnv, target: Option<string>)
    : Result<AxisTransform, FactorError>
  {
    if !PowerFree(formula) then Err(PowerNotAllowed)
    else
      match DimensionSignature(formula, dims)
      case Err(x) => Err(x)
      case Ok(signature) =>
        if target.None? && signature != map[] then Err(NotDimensionless)
        else if target.Some? && |signature.Keys| != 1 then Err(NotOneDimension)
        else if target.Some? && signature.Keys != {target.value} then Err(WrongAxis)
        else if !(dims.Keys <= Names(formula)) then Err(Extra)
        else Ok(AxisTransform(formula, dims, signature, target))
  }

  /** Whatever the IR's checker accepts, the unit checker accepts with the same exponents. */
  lemma {:induction false} SignatureRefinesDimension(e: Expr, dims: UnitEnv)
    requires PowerFree(e) && DimensionSignature(e, dims).Ok?
    ensures Dimension(e, dims) == Ok(DimensionSignature(e, dims).value)
  {
    match e
    case Name(_) =>
    case Const(_) =>
    case Unary(_, a) => SignatureRefinesDimension(a, dims);
    case Binary(_, a, b) => SignatureRefinesDimension(a, dims); SignatureRefinesDimension(b, dims);
  }

  /** A compiled factor's log-potential does not depend on the choice of base units. */
  lemma {:induction false} LogPotentialIsUnitFree(formula: Expr, dims: UnitEnv, values: Values, s: Scale,
                                                  labels: seq<string>)
    requires Positive(s) && CompileFactorIr(formula, dims).Ok?
    ensures
      var ir := CompileFactorIr(formula, dims).value;
      LogPotential(ir, Rescale(s, labels, dims, values)) == LogPotential(ir, values)
  {
    SignatureRefinesDimension(formula, dims);
    DimensionlessIsInvariant(formula, dims, values, s, labels);
  }

  /** An axis transform is checked against the target axis by dimension name only.  Of the formulas the
      compiler accepts for an axis, those whose value rescales as the axis does, for every choice of the
      axis's unit, are exactly those of exponent one (and a formula without a nonzero value). */
  lemma {:induction false} AxisTransformScalesExactly(formula: Expr, dims: UnitEnv, target: string, values: Values)
    requires PowerFree(formula) && dims.Keys <= Names(formula)
    requires DimensionSignature(formula, dims).Ok? && DimensionSignature(formula, dims).value.Keys == {target}
    ensures CompileAxisTransform(formula, dims, Some(target)).Ok?
    ensures (forall f: real :: f > 0.0 ==>
      RescalesAs(formula, dims, values, map[target := 1], OnlyBy(target, f), [target]))
       <==> (DimensionSignature(formula, dims) == Ok(map[target := 1]) || Eval(formula, values).Err?
         || Eval(formula, values) == Ok(0.0))
  {
    var output := DimensionSignature(formula, dims).value;
    assert |{target}| == 1;
    SignatureRefinesDimension(formula, dims);
    RescalesExactlyIn(formula, dims, values, map[target := 1], target);
    hide Eval, DimensionSignature;
    if Exponent(output, target) == 1 { assert output == map[target := 1]; }
  }

  const SECONDS: CompoundUnit := map["time" := 1]

  const SQUARE: Expr := Binary(Mul, Name("t"), Name("t"))

  lemma {:induction false} SquareSignature(dims: UnitEnv)
    requires dims == map["t" := SECONDS]
    ensures CompileAxisTransform(SQUARE, dims, Some("time")).Ok?
  {
    ExponentLaws(SECONDS, SECONDS, 0, "time");
    assert Multiply(SECONDS, SECONDS) == map["time" := 2];
    assert |{"time"}| == 1;
    assert DimensionSignature(Name("t"), dims) == Ok(SECONDS);
  }

  lemma {:induction false} SquareEval(x: real)
    ensures Eval(SQUARE, map["t" := x]) == Ok(Times(x, x))
  {
    assert Eval(Name("t"), map["t" := x]) == Ok(x);
  }

  /** `t * t` is accepted for an axis of dimension t, and none of its nonzero values moves as the axis
      does: counting time in half the unit doubles the axis and quadruples the square. */
  lemma {:induction false} SquareAcceptedForAxis(x: real)
    requires x != 0.0
    ensures
      var dims, values := map["t" := SECONDS], map["t" := x];
      && CompileAxisTransform(SQUARE, dims, Some("time")).Ok?
      && Eval(SQUARE, Rescale(OnlyBy("time", 2.0), ["time"], dims, values)) == Ok(Times(Times(x, x), 4.0))
      && RescaleOutcome(Eval(SQUARE, values), Factor(OnlyBy("time", 2.0), ["time"], SECONDS))
         == Ok(Times(Times(x, x), 2.0))
      && !RescalesAs(SQUARE, dims, values, SECONDS, OnlyBy("time", 2.0), ["time"])
  {
    var dims, values := map["t" := SECONDS], map["t" := x];
    SquareSignature(dims);
    FactorOfOne(OnlyBy("time", 2.0), "time", SECONDS);
    assert NatPow(2.0, 1) == 2.0 * NatPow(2.0, 0);
    assert Rescale(OnlyBy("time", 2.0), ["time"], dims, values) == map["t" := Times(x, 2.0)];
    SquareEval(x);
    SquareEval(Times(x, 2.0));
    hide Eval, Factor, SQUARE, CompileAxisTransform, Rescale;
    NonzeroProduct(x, x);
    Regroup(x, 2.0, x, 2.0);
    assert Times(2.0, 2.0) == 4.0;
    hide Times;
    Commute(Times(x, x), 4.0);
    Commute(Times(x, x), 2.0);
    if Times(Times(x, x), 4.0) == Times(Times(x, x), 2.0) { CancelRight(4.0, 2.0, Times(x, x)); }
  }
}
