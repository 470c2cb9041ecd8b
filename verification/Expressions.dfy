/** Restricted arithmetic: the expression tree and its numeric meaning. */
module Expressions {
  import opened Wrappers
  import opened Reals

  /** A numeric literal remembers whether it was written as an int or a float. */
  datatype Number = IntNum(n: int) | FloatNum(r: real)

  datatype Sign = Plus | Minus

  datatype Op = Add | Sub | Mul | Div | Pow

  datatype Expr =
    | Name(id: string)
    | Const(value: Number)
    | Unary(sign: Sign, operand: Expr)
    | Binary(op: Op, left: Expr, right: Expr)

  type Values = map<string, real>

  datatype EvalError = Missing(id: string) | ZeroDivision | BadExponent

  function ToReal(n: Number): real {
    match n case IntNum(i) => i as real case FloatNum(r) => r
  }

  function Names(e: Expr): set<string> {
    match e
    case Name(id) => {id}
    case Const(_) => {}
    case Unary(_, a) => Names(a)
    case Binary(_, a, b) => Names(a) + Names(b)
  }

  /** How often a variable occurs. */
  function Occurrences(e: Expr, id: string): nat {
    match e
    case Name(x) => if x == id then 1 else 0
    case Const(_) => 0
    case Unary(_, a) => Occurrences(a, id)
    case Binary(_, a, b) => Occurrences(a, id) + Occurrences(b, id)
  }

  lemma {:induction false} OccursIffNamed(e: Expr, id: string)
    ensures Occurrences(e, id) > 0 <==> id in Names(e)
  {
    match e
    case Name(_) =>
    case Const(_) =>
    case Unary(_, a) => OccursIffNamed(a, id);
    case Binary(_, a, b) => OccursIffNamed(a, id); OccursIffNamed(b, id);
  }

  function ApplyOp(op: Op, x: real, y: real, exponent: Expr): Result<real, EvalError> {
    match op
    case Add => Ok(x + y)
    case Sub => Ok(x - y)
    case Mul => Ok(Times(x, y))
    case Div => if y == 0.0 then Err(ZeroDivision) else Ok(Over(x, y))
    case Pow =>
      if !(exponent.Const? && exponent.value.IntNum?) then Err(BadExponent)
      else if exponent.value.n < 0 && x == 0.0 then Err(ZeroDivision)
      else Ok(IntPow(x, exponent.value.n))
  }

  /** Numeric evaluation; both operands are evaluated before the operator is looked at. */
  function Eval(e: Expr, values: Values): Result<real, EvalError> {
    match e
    case Name(id) => if id in values then Ok(values[id]) else Err(Missing(id))
    case Const(v) => Ok(ToReal(v))
    case Unary(sign, a) =>
      (match Eval(a, values)
       case Err(x) => Err(x)
       case Ok(v) => Ok(if sign == Plus then v else -v))
    case Binary(op, a, b) =>
      match Eval(a, values)
      case Err(x) => Err(x)
      case Ok(x) =>
        match Eval(b, values)
        case Err(err) => Err(err)
        case Ok(y) => ApplyOp(op, x, y, b)
  }

  /** Only the variables an expression names matter to its value. */
  lemma {:induction false} EvalCongruence(e: Expr, v: Values, v': Values)
    requires forall x :: x in Names(e) ==> (x in v <==> x in v') && (x in v ==> v[x] == v'[x])
    ensures Eval(e, v) == Eval(e, v')
  {
    match e
    case Name(_) =>
    case Const(_) =>
    case Unary(_, a) => EvalCongruence(a, v, v');
    case Binary(_, a, b) => EvalCongruence(a, v, v'); EvalCongruence(b, v, v');
  }

  /** The grammar without powers, shared by the interval, ablation and factor surfaces. */
  predicate PowerFree(e: Expr) {
    match e
    case Name(_) => true
    case Const(_) => true
    case Unary(_, a) => PowerFree(a)
    case Binary(op, a, b) => op != Pow && PowerFree(a) && PowerFree(b)
  }
}
