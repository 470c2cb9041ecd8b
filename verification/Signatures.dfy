/** Canonical signatures: the text that tells whether two formulas are rewrites of one another. */
module Signatures {
  import opened Wrappers
  import opened Expressions
  import Text

  /** How a Python version prints floats and names in dumps: the floats there are, their text, and
      what follows the identifier of a dumped name. */
  datatype Printer = Printer(float: real -> bool, repr: real -> string, context: string)

  // --- characters and tokens -----------------------------------------------------------------

  predicate Delimiter(c: char) {
    c == '(' || c == ')' || c == '+' || c == '-' || c == '*' || c == '/' || c == ','
  }

  predicate Digit(c: char) {
    '0' <= c <= '9'
  }

  /** Identifiers hold neither delimiters nor quotes. */
  predicate Identifier(id: string) {
    forall i :: 0 <= i < |id| ==> !Delimiter(id[i]) && id[i] != '\''
  }

  /** No delimiter but a minus sign in front of a digit, as in a negative exponent. */
  predicate Token(s: string) {
    forall i {:trigger Delimiter(s[i])} :: 0 <= i < |s| ==>
      !Delimiter(s[i]) || (s[i] == '-' && i + 1 < |s| && Digit(s[i + 1]))
  }

  /** What can follow a token: nothing, or a delimiter that is not the sign of a digit. */
  predicate Stop(u: string) {
    u == "" || (Delimiter(u[0]) && (u[0] == '-' && |u| > 1 ==> !Digit(u[1])))
  }

  /** The text of a float shows that it is one. */
  predicate Fractional(s: string) {
    '.' in s || 'e' in s
  }

  predicate Whole(r: real) {
    r == r.Floor as real
  }

  /** Different floats have different texts, which show that they are floats and close no parenthesis;
      those of fractional floats are tokens.  A large whole float may be written with a signed exponent. */
  ghost predicate PrinterOk(p: Printer) {
    && (forall r, s :: p.float(r) && p.float(s) && p.repr(r) == p.repr(s) ==> r == s)
    && (forall r :: p.float(r) ==> Fractional(p.repr(r)) && ')' !in p.repr(r))
    && (forall r :: p.float(r) && !Whole(r) ==> Token(p.repr(r)))
  }

  /** What the parser lets through: identifiers as names and floats as constants. */
  predicate Printable(p: Printer, e: Expr) {
    match e
    case Name(id) => Identifier(id)
    case Const(v) => v.FloatNum? ==> p.float(v.r)
    case Unary(_, a) => Printable(p, a)
    case Binary(_, a, b) => Printable(p, a) && Printable(p, b)
  }

  // --- the text ----------------------------------------------------------------------------------

  function IntText(n: int): string {
    if n < 0 then "-" + Text.Decimal(-n) else Text.Decimal(n)
  }

  /** A whole float is written as the integer it is. */
  function NumberText(p: Printer, v: Number): string {
    match v
    case IntNum(n) => IntText(n)
    case FloatNum(r) => if Whole(r) then IntText(r.Floor) else p.repr(r)
  }

  /** The literal as Python writes it. */
  function LiteralText(p: Printer, v: Number): string {
    match v
    case IntNum(n) => IntText(n)
    case FloatNum(r) => p.repr(r)
  }

  function OpWord(op: Op): string {
    match op case Add => "Add" case Sub => "Sub" case Mul => "Mult" case Div => "Div" case Pow => "Pow"
  }

  function SignWord(sign: Sign): string {
    match sign case Plus => "UAdd" case Minus => "USub"
  }

  /** The parser's dump of a formula. */
  function Dump(p: Printer, e: Expr): string {
    match e
    case Name(id) => "Name(id='" + (id + ("'" + (p.context + ")")))
    case Const(v) => "Constant(value=" + (LiteralText(p, v) + ")")
    case Unary(sign, a) => "UnaryOp(op=" + (SignWord(sign) + ("(), operand=" + (Dump(p, a) + ")")))
    case Binary(op, a, b) =>
      "BinOp(left=" + (Dump(p, a) + (", op=" + (OpWord(op) + ("(), right=" + (Dump(p, b) + ")")))))
  }

  predicate IntExponent(e: Expr) {
    e.Const? && e.value.IntNum?
  }

  function ExponentText(p: Printer, e: Expr): string {
    if IntExponent(e) then IntText(e.value.n) else Dump(p, e)
  }

  function OpSign(op: Op): char {
    match op case Add => '+' case Sub => '-' case Mul => '*' case Div => '/' case Pow => '^'
  }

  function SignChar(sign: Sign): char {
    if sign == Plus then '+' else '-'
  }

  predicate Commutes(op: Op) {
    op == Add || op == Mul
  }

  /** The operand that comes first once the texts of a commutative operation are sorted. */
  predicate Swapped(op: Op, left: string, right: string) {
    Commutes(op) && Text.Less(right, left)
  }

  function Joined(op: Op, left: string, right: string): string {
    "(" + (left + ([OpSign(op)] + (right + ")")))
  }

  function Signature(p: Printer, e: Expr): string {
    match e
    case Name(id) => "name:" + id
    case Const(v) => "const:" + NumberText(p, v)
    case Unary(sign, a) => "uop(" + ([SignChar(sign)] + ("," + (Signature(p, a) + ")")))
    case Binary(op, a, b) =>
      var left, right := Signature(p, a), Signature(p, b);
      if op == Pow then "pow(" + (left + ("," + (ExponentText(p, b) + ")")))
      else if Swapped(op, left, right) then Joined(op, right, left)
      else Joined(op, left, right)
  }

  /** The same formula up to swapping operands of `+` and `*` at any depth and writing an integer
      constant as int or float.  Exponents are compared as written. */
  predicate SameUpToSwaps(a: Expr, b: Expr) {
    match (a, b)
    case (Name(x), Name(y)) => x == y
    case (Const(v), Const(w)) => ToReal(v) == ToReal(w)
    case (Unary(s, a0), Unary(t, b0)) => s == t && SameUpToSwaps(a0, b0)
    case (Binary(op, a0, a1), Binary(op', b0, b1)) =>
      op == op' &&
      if op == Pow then a1 == b1 && SameUpToSwaps(a0, b0)
      else
        || (SameUpToSwaps(a0, b0) && SameUpToSwaps(a1, b1))
        || ((op == Add || op == Mul) && SameUpToSwaps(a0, b1) && SameUpToSwaps(a1, b0))
    case _ => false
  }

  // --- reading texts back ------------------------------------------------------------------------

  lemma {:induction false} Prefixes(a: string, u: string, b: string, v: string)
    requires a + u == b + v && |a| == |b|
    ensures a == b && u == v
  {
    assert (a + u)[..|a|] == a && (b + v)[..|b|] == b;
    assert (a + u)[|a|..] == u && (b + v)[|b|..] == v;
  }

  lemma {:induction false} FirstOf(a: string, u: string)
    requires a != ""
    ensures a + u != "" && (a + u)[0] == a[0]
  {
  }

  /** Where the longer of two prefixes goes on, the shorter one's rest begins. */
  lemma {:induction false} Overlap(a: string, u: string, b: string, v: string, j: nat)
    requires a + u == b + v && |a| + j < |b|
    ensures j < |u| && b[|a| + j] == u[j]
  {
    assert (a + u)[|a| + j] == (b + v)[|a| + j];
  }

  /** A token ends where it must. */
  lemma {:induction false} TokenNotLonger(a: string, u: string, b: string, v: string)
    requires Token(b) && Stop(u) && a + u == b + v
    ensures |b| <= |a|
  {
    if |a| < |b| {
      var k := |a|;
      var c := b[k];
      assert Delimiter(c) ==> c == '-' && k + 1 < |b| && Digit(b[k + 1]);
      if k + 1 < |b| { Overlap(a, u, b, v, 1); }
      Overlap(a, u, b, v, 0);
    }
  }

  lemma {:induction false} TokenRead(a: string, u: string, b: string, v: string)
    requires Token(a) && Token(b) && Stop(u) && Stop(v) && a + u == b + v
    ensures a == b && u == v
  {
    TokenNotLonger(a, u, b, v);
    TokenNotLonger(b, v, a, u);
    Prefixes(a, u, b, v);
  }

  lemma {:induction false} RunNotLonger(a: string, u: string, b: string, v: string, stop: char)
    requires stop !in b && u != "" && u[0] == stop && a + u == b + v
    ensures |b| <= |a|
  {
    if |a| < |b| { Overlap(a, u, b, v, 0); }
  }

  /** Up to the first `stop`. */
  lemma {:induction false} RunRead(a: string, u: string, b: string, v: string, stop: char)
    requires stop !in a && stop !in b && u != "" && v != "" && u[0] == stop && v[0] == stop
    requires a + u == b + v
    ensures a == b && u == v
  {
    RunNotLonger(a, u, b, v, stop);
    RunNotLonger(b, v, a, u, stop);
    Prefixes(a, u, b, v);
  }

  // --- numbers -----------------------------------------------------------------------------------

  lemma {:induction false} DecimalDigits(n: nat)
    ensures Text.Decimal(n) != "" && forall i :: 0 <= i < |Text.Decimal(n)| ==> Digit(Text.Decimal(n)[i])
  {
    if n >= 10 { DecimalDigits(n / 10); }
  }

  lemma {:induction false} IntTextShape(n: int)
    ensures Token(IntText(n)) && !Fractional(IntText(n)) && IntText(n) != ""
    ensures IntText(n)[0] == '-' || Digit(IntText(n)[0])
  {
    var d := Text.Decimal(if n < 0 then -n else n);
    DecimalDigits(if n < 0 then -n else n);
    if n < 0 {
      assert IntText(n)[0] == '-' && IntText(n)[1] == d[0];
      var t := IntText(n);
      forall i | 1 <= i < |t| ensures Digit(t[i]) { assert t[i] == d[i - 1]; }
      forall i | 0 <= i < |t| ensures !Delimiter(t[i]) || (t[i] == '-' && i + 1 < |t| && Digit(t[i + 1])) {
        if i == 0 { assert t[1] == d[0]; }
      }
    } else {
      assert IntText(n) == d;
      forall i | 0 <= i < |d| ensures !Delimiter(d[i]) { assert Digit(d[i]); }
    }
  }

  lemma {:induction false} IntTextInjective(m: int, n: int)
    requires IntText(m) == IntText(n)
    ensures m == n
  {
    DecimalDigits(if m < 0 then -m else m);
    DecimalDigits(if n < 0 then -n else n);
    assert IntText(m)[0] == '-' <==> m < 0;
    assert IntText(n)[0] == '-' <==> n < 0;
    Text.ParseDecimal(if m < 0 then -m else m);
    Text.ParseDecimal(if n < 0 then -n else n);
    if m < 0 && n < 0 {
      Text.PrefixInjective("-", Text.Decimal(-m), Text.Decimal(-n));
    }
  }

  predicate PrintableNumber(p: Printer, v: Number) {
    v.FloatNum? ==> p.float(v.r)
  }

  /** Two constants have the same text exactly when they are the same number. */
  lemma {:induction false} NumberTextExactly(p: Printer, v: Number, w: Number)
    requires PrinterOk(p) && PrintableNumber(p, v) && PrintableNumber(p, w)
    ensures Token(NumberText(p, v))
    ensures NumberText(p, v) == NumberText(p, w) <==> ToReal(v) == ToReal(w)
  {
    forall n: int ensures Token(IntText(n)) && !Fractional(IntText(n)) { IntTextShape(n); }
    forall m: int, n: int | IntText(m) == IntText(n) ensures m == n { IntTextInjective(m, n); }
    hide IntText, Token, Fractional;
  }

  lemma {:induction false} TokenCloses(s: string)
    requires Token(s)
    ensures ')' !in s
  {
    if ')' in s {
      var k :| 0 <= k < |s| && s[k] == ')';
      var c := s[k];
      assert Delimiter(c);
    }
  }

  /** Two literals have the same text only if they are the same literal. */
  lemma {:induction false} LiteralTextExactly(p: Printer, v: Number, w: Number)
    requires PrinterOk(p) && PrintableNumber(p, v) && PrintableNumber(p, w)
    ensures ')' !in LiteralText(p, v)
    ensures LiteralText(p, v) == LiteralText(p, w) ==> v == w
  {
    forall n: int ensures ')' !in IntText(n) && !Fractional(IntText(n)) {
      IntTextShape(n);
      TokenCloses(IntText(n));
    }
    forall m: int, n: int | IntText(m) == IntText(n) ensures m == n { IntTextInjective(m, n); }
    hide IntText, Token, Fractional;
  }

  // --- dumps ---------------------------------------------------------------------------------------

  /** Cancelling a common head. */
  lemma {:induction false} Unwrap(h: string, a: string, s: string, u: string, b: string, t: string, v: string)
    requires (h + (a + s)) + u == (h + (b + t)) + v
    ensures a + (s + u) == b + (t + v)
  {
    assert (h + (a + s)) + u == h + (a + (s + u));
    assert (h + (b + t)) + v == h + (b + (t + v));
    Prefixes(h, a + (s + u), h, b + (t + v));
  }

  lemma {:induction false} Closing(u: string, v: string)
    ensures Stop(")" + u)
    ensures ")" + u == ")" + v ==> u == v
  {
    if ")" + u == ")" + v { Prefixes(")", u, ")", v); }
  }

  lemma {:induction false} OpWords(op: Op, op': Op)
    ensures '(' !in OpWord(op)
    ensures OpWord(op) == OpWord(op') ==> op == op'
  {
  }

  lemma {:induction false} SignWords(s: Sign, t: Sign)
    ensures '(' !in SignWord(s)
    ensures SignWord(s) == SignWord(t) ==> s == t
  {
    assert SignWord(s)[1] == if s == Plus then 'A' else 'S';
    assert SignWord(t)[1] == if t == Plus then 'A' else 'S';
  }

  function DumpHead(e: Expr): char {
    match e case Name(_) => 'N' case Const(_) => 'C' case Unary(_, _) => 'U' case Binary(_, _, _) => 'B'
  }

  lemma {:induction false} DumpStarts(p: Printer, e: Expr)
    ensures Dump(p, e) != "" && Dump(p, e)[0] == DumpHead(e)
  {
  }

  /** Dumps can be read back from the front. */
  lemma {:induction false} DumpRead(p: Printer, e: Expr, u: string, f: Expr, v: string)
    requires PrinterOk(p) && Printable(p, e) && Printable(p, f) && Dump(p, e) + u == Dump(p, f) + v
    ensures e == f && u == v
    decreases e
  {
    DumpStarts(p, e);
    DumpStarts(p, f);
    FirstOf(Dump(p, e), u);
    FirstOf(Dump(p, f), v);
    match (e, f)
    case (Name(id), Name(id')) => NameRead(p, id, u, id', v);
    case (Const(w), Const(w')) => ConstRead(p, w, u, w', v);
    case (Unary(sign, a), Unary(sign', a')) =>
      UnaryHead(p, sign, a, u, sign', a', v);
      DumpRead(p, a, ")" + u, a', ")" + v);
      Closing(u, v);
    case (Binary(op, a, b), Binary(op', a', b')) =>
      var r := ", op=" + (OpWord(op) + ("(), right=" + (Dump(p, b) + ")")));
      var r' := ", op=" + (OpWord(op') + ("(), right=" + (Dump(p, b') + ")")));
      Unwrap("BinOp(left=", Dump(p, a), r, u, Dump(p, a'), r', v);
      DumpRead(p, a, r + u, a', r' + v);
      BinaryTail(p, op, b, u, op', b', v);
      DumpRead(p, b, ")" + u, b', ")" + v);
      Closing(u, v);
    case _ => assert false;
  }

  lemma {:induction false} NameRead(p: Printer, id: string, u: string, id': string, v: string)
    requires Identifier(id) && Identifier(id') && Dump(p, Name(id)) + u == Dump(p, Name(id')) + v
    ensures id == id' && u == v
  {
    var s := "'" + (p.context + ")");
    Unwrap("Name(id='", id, s, u, id', s, v);
    FirstOf(s, u);
    FirstOf(s, v);
    RunRead(id, s + u, id', s + v, '\'');
    Prefixes(s, u, s, v);
  }

  lemma {:induction false} ConstRead(p: Printer, w: Number, u: string, w': Number, v: string)
    requires PrinterOk(p) && PrintableNumber(p, w) && PrintableNumber(p, w')
    requires Dump(p, Const(w)) + u == Dump(p, Const(w')) + v
    ensures w == w' && u == v
  {
    Unwrap("Constant(value=", LiteralText(p, w), ")", u, LiteralText(p, w'), ")", v);
    LiteralTextExactly(p, w, w');
    LiteralTextExactly(p, w', w);
    Closing(u, v);
    Closing(v, u);
    RunRead(LiteralText(p, w), ")" + u, LiteralText(p, w'), ")" + v, ')');
  }

  lemma {:induction false} UnaryHead(p: Printer, sign: Sign, a: Expr, u: string, sign': Sign, a': Expr, v: string)
    requires Dump(p, Unary(sign, a)) + u == Dump(p, Unary(sign', a')) + v
    ensures sign == sign' && Dump(p, a) + (")" + u) == Dump(p, a') + (")" + v)
  {
    var s, s' := "(), operand=" + (Dump(p, a) + ")"), "(), operand=" + (Dump(p, a') + ")");
    Unwrap("UnaryOp(op=", SignWord(sign), s, u, SignWord(sign'), s', v);
    SignWords(sign, sign');
    SignWords(sign', sign);
    FirstOf(s, u);
    FirstOf(s', v);
    RunRead(SignWord(sign), s + u, SignWord(sign'), s' + v, '(');
    Unwrap("(), operand=", Dump(p, a), ")", u, Dump(p, a'), ")", v);
  }

  lemma {:induction false} BinaryTail(p: Printer, op: Op, b: Expr, u: string, op': Op, b': Expr, v: string)
    requires (", op=" + (OpWord(op) + ("(), right=" + (Dump(p, b) + ")")))) + u
      == (", op=" + (OpWord(op') + ("(), right=" + (Dump(p, b') + ")")))) + v
    ensures op == op' && Dump(p, b) + (")" + u) == Dump(p, b') + (")" + v)
  {
    var s, s' := "(), right=" + (Dump(p, b) + ")"), "(), right=" + (Dump(p, b') + ")");
    Unwrap(", op=", OpWord(op), s, u, OpWord(op'), s', v);
    OpWords(op, op');
    OpWords(op', op);
    FirstOf(s, u);
    FirstOf(s', v);
    RunRead(OpWord(op), s + u, OpWord(op'), s' + v, '(');
    Unwrap("(), right=", Dump(p, b), ")", u, Dump(p, b'), ")", v);
  }

  // --- signatures ------------------------------------------------------------------------------------

  function SignatureHead(e: Expr): char {
    match e
    case Name(_) => 'n'
    case Const(_) => 'c'
    case Unary(_, _) => 'u'
    case Binary(op, _, _) => if op == Pow then 'p' else '('
  }

  lemma {:induction false} SignatureStarts(p: Printer, e: Expr)
    ensures Signature(p, e) != "" && Signature(p, e)[0] == SignatureHead(e)
  {
  }

  /** The operands in the order in which their texts are joined. */
  function Earlier(p: Printer, op: Op, a: Expr, b: Expr): Expr {
    if Swapped(op, Signature(p, a), Signature(p, b)) then b else a
  }

  function Later(p: Printer, op: Op, a: Expr, b: Expr): Expr {
    if Swapped(op, Signature(p, a), Signature(p, b)) then a else b
  }

  lemma {:induction false} BinaryText(p: Printer, op: Op, a: Expr, b: Expr)
    requires op != Pow
    ensures Signature(p, Binary(op, a, b))
         == Joined(op, Signature(p, Earlier(p, op, a, b)), Signature(p, Later(p, op, a, b)))
  {
  }

  /** What follows the first operand. */
  function Rest(p: Printer, op: Op, y: Expr): string {
    [OpSign(op)] + (Signature(p, y) + ")")
  }

  lemma {:induction false} RestStops(p: Printer, op: Op, y: Expr, u: string)
    requires op != Pow
    ensures Stop(Rest(p, op, y) + u)
    ensures Rest(p, op, y) + u == [OpSign(op)] + (Signature(p, y) + (")" + u))
  {
    SignatureStarts(p, y);
    assert Rest(p, op, y) + u == [OpSign(op)] + (Signature(p, y) + (")" + u));
    FirstOf(Signature(p, y), ")" + u);
  }

  /** Signatures can be read back from the front, up to the order of commuting operands. */
  lemma {:induction false} SignatureRead(p: Printer, e: Expr, u: string, f: Expr, v: string)
    requires PrinterOk(p) && Printable(p, e) && Printable(p, f) && Stop(u) && Stop(v)
    requires Signature(p, e) + u == Signature(p, f) + v
    ensures Signature(p, e) == Signature(p, f) && u == v && SignatureHead(e) == SignatureHead(f)
    decreases e, 1
  {
    SignatureStarts(p, e);
    SignatureStarts(p, f);
    FirstOf(Signature(p, e), u);
    FirstOf(Signature(p, f), v);
    match (e, f)
    case (Name(id), Name(id')) =>
      NameToken(id);
      NameToken(id');
      TokenRead("name:" + id, u, "name:" + id', v);
    case (Const(w), Const(w')) => ConstSignatureRead(p, w, u, w', v);
    case (Unary(sign, a), Unary(sign', a')) =>
      UnarySplit(p, sign, a, u, sign', a', v);
      SignatureRead(p, a, ")" + u, a', ")" + v);
      Closing(u, v);
    case (Binary(op, a, b), Binary(op', a', b')) =>
      if op == Pow {
        PowerRead(p, a, b, u, a', b', v);
      } else {
        JoinedRead(p, op, a, b, u, op', a', b', v);
        BinaryText(p, op, a, b);
        BinaryText(p, op', a', b');
      }
    case _ => assert false;
  }

  lemma {:induction false} NameToken(id: string)
    requires Identifier(id)
    ensures Token("name:" + id)
  {
    var h := "name:";
    forall i | 0 <= i < |h + id| ensures !Delimiter((h + id)[i]) {
      if i >= |h| { assert (h + id)[i] == id[i - |h|]; }
    }
  }

  lemma {:induction false} ConstSignatureRead(p: Printer, w: Number, u: string, w': Number, v: string)
    requires PrinterOk(p) && PrintableNumber(p, w) && PrintableNumber(p, w') && Stop(u) && Stop(v)
    requires Signature(p, Const(w)) + u == Signature(p, Const(w')) + v
    ensures Signature(p, Const(w)) == Signature(p, Const(w')) && u == v
  {
    NumberTextExactly(p, w, w');
    NumberTextExactly(p, w', w);
    var s, t := NumberText(p, w), NumberText(p, w');
    assert ("const:" + s) + u == "const:" + (s + u) && ("const:" + t) + v == "const:" + (t + v);
    Prefixes("const:", s + u, "const:", t + v);
    TokenRead(s, u, t, v);
  }

  lemma {:induction false} UnarySplit(p: Printer, sign: Sign, a: Expr, u: string, sign': Sign, a': Expr, v: string)
    requires Signature(p, Unary(sign, a)) + u == Signature(p, Unary(sign', a')) + v
    ensures sign == sign' && Signature(p, a) + (")" + u) == Signature(p, a') + (")" + v)
    ensures Stop(")" + u) && Stop(")" + v)
  {
    var s, s' := "," + (Signature(p, a) + ")"), "," + (Signature(p, a') + ")");
    Unwrap("uop(", [SignChar(sign)], s, u, [SignChar(sign')], s', v);
    Prefixes([SignChar(sign)], s + u, [SignChar(sign')], s' + v);
    Unwrap(",", Signature(p, a), ")", u, Signature(p, a'), ")", v);
  }

  /** Reading a joined pair: the same operation, and the same two texts in the same order. */
  lemma {:induction false} JoinedRead(p: Printer, op: Op, a: Expr, b: Expr, u: string, op': Op, a': Expr, b': Expr,
                                      v: string)
    requires PrinterOk(p) && op != Pow && op' != Pow && Stop(u) && Stop(v)
    requires Printable(p, a) && Printable(p, b) && Printable(p, a') && Printable(p, b')
    requires Signature(p, Binary(op, a, b)) + u == Signature(p, Binary(op', a', b')) + v
    ensures op == op' && u == v
    ensures Signature(p, Earlier(p, op, a, b)) == Signature(p, Earlier(p, op, a', b'))
    ensures Signature(p, Later(p, op, a, b)) == Signature(p, Later(p, op, a', b'))
    decreases Binary(op, a, b), 0
  {
    var x, y := Earlier(p, op, a, b), Later(p, op, a, b);
    var x', y' := Earlier(p, op', a', b'), Later(p, op', a', b');
    BinaryText(p, op, a, b);
    BinaryText(p, op', a', b');
    Unwrap("(", Signature(p, x), Rest(p, op, y), u, Signature(p, x'), Rest(p, op', y'), v);
    RestStops(p, op, y, u);
    RestStops(p, op', y', v);
    assert x == a || x == b;
    SignatureRead(p, x, Rest(p, op, y) + u, x', Rest(p, op', y') + v);
    Prefixes([OpSign(op)], Signature(p, y) + (")" + u), [OpSign(op')], Signature(p, y') + (")" + v));
    Closing(u, v);
    Closing(v, u);
    assert y == a || y == b;
    SignatureRead(p, y, ")" + u, y', ")" + v);
  }

  lemma {:induction false} ExponentRead(p: Printer, b: Expr, u: string, b': Expr, v: string)
    requires PrinterOk(p) && Printable(p, b) && Printable(p, b')
    requires ExponentText(p, b) + (")" + u) == ExponentText(p, b') + (")" + v)
    ensures b == b' && u == v
  {
    Closing(u, v);
    Closing(v, u);
    FirstOf(ExponentText(p, b), ")" + u) by { ExponentStarts(p, b); }
    FirstOf(ExponentText(p, b'), ")" + v) by { ExponentStarts(p, b'); }
    ExponentStarts(p, b);
    ExponentStarts(p, b');
    if IntExponent(b) {
      IntTextShape(b.value.n);
      IntTextShape(b'.value.n);
      TokenRead(IntText(b.value.n), ")" + u, IntText(b'.value.n), ")" + v);
      IntTextInjective(b.value.n, b'.value.n);
    } else {
      DumpRead(p, b, ")" + u, b', ")" + v);
    }
  }

  /** An integer exponent starts with a sign or a digit, a dumped one with a capital. */
  lemma {:induction false} ExponentStarts(p: Printer, b: Expr)
    ensures ExponentText(p, b) != ""
    ensures IntExponent(b) <==> ExponentText(p, b)[0] == '-' || Digit(ExponentText(p, b)[0])
  {
    if IntExponent(b) { IntTextShape(b.value.n); } else { DumpStarts(p, b); }
  }

  lemma {:induction false} PowerRead(p: Printer, a: Expr, b: Expr, u: string, a': Expr, b': Expr, v: string)
    requires PrinterOk(p) && Stop(u) && Stop(v)
    requires Printable(p, a) && Printable(p, b) && Printable(p, a') && Printable(p, b')
    requires Signature(p, Binary(Pow, a, b)) + u == Signature(p, Binary(Pow, a', b')) + v
    ensures Signature(p, a) == Signature(p, a') && b == b' && u == v
    decreases Binary(Pow, a, b), 0
  {
    var s, s' := "," + (ExponentText(p, b) + ")"), "," + (ExponentText(p, b') + ")");
    Unwrap("pow(", Signature(p, a), s, u, Signature(p, a'), s', v);
    assert Stop(s + u) && Stop(s' + v);
    SignatureRead(p, a, s + u, a', s' + v);
    Unwrap(",", ExponentText(p, b), ")", u, ExponentText(p, b'), ")", v);
    ExponentRead(p, b, u, b', v);
  }

  // --- signatures and rewrites ------------------------------------------------------------------------

  /** Sorting two texts forgets their order and nothing else. */
  lemma {:induction false} SortedPairs(p: Printer, op: Op, a: Expr, b: Expr, a': Expr, b': Expr)
    ensures (Signature(p, Earlier(p, op, a, b)) == Signature(p, Earlier(p, op, a', b'))
             && Signature(p, Later(p, op, a, b)) == Signature(p, Later(p, op, a', b')))
       <==> (Signature(p, a) == Signature(p, a') && Signature(p, b) == Signature(p, b'))
            || (Commutes(op) && Signature(p, a) == Signature(p, b') && Signature(p, b) == Signature(p, a'))
  {
    hide Signature;
    Text.LessTotal(Signature(p, a), Signature(p, b));
    Text.LessTotal(Signature(p, a'), Signature(p, b'));
  }

  /** Equal texts mean exactly: the same formula up to commuted operands. */
  lemma {:induction false} SignatureExactly(p: Printer, a: Expr, b: Expr)
    requires PrinterOk(p) && Printable(p, a) && Printable(p, b)
    ensures Signature(p, a) == Signature(p, b) <==> SameUpToSwaps(a, b)
  {
    SignatureStarts(p, a);
    SignatureStarts(p, b);
    match (a, b)
    case (Name(x), Name(y)) => if x != y { DifferentNames(p, x, y); }
    case (Const(v), Const(w)) => NumberTextExactly(p, v, w); ConstTexts(p, v, w);
    case (Unary(s, a0), Unary(t, b0)) =>
      SignatureExactly(p, a0, b0);
      if Signature(p, a) == Signature(p, b) {
        SignatureRead(p, a0, ")" + "", b0, ")" + "") by { UnarySplit(p, s, a0, "", t, b0, ""); }
        UnarySplit(p, s, a0, "", t, b0, "");
      }
    case (Binary(op, a0, a1), Binary(op', b0, b1)) =>
      SignatureExactly(p, a0, b0);
      SignatureExactly(p, a1, b1);
      SignatureExactly(p, a0, b1);
      SignatureExactly(p, a1, b0);
      BinaryExactly(p, op, a0, a1, op', b0, b1);
    case _ =>
  }

  lemma {:induction false} DifferentNames(p: Printer, x: string, y: string)
    requires x != y
    ensures Signature(p, Name(x)) != Signature(p, Name(y))
  {
    if Signature(p, Name(x)) == Signature(p, Name(y)) { Prefixes("name:", x, "name:", y); }
  }

  lemma {:induction false} ConstTexts(p: Printer, v: Number, w: Number)
    ensures Signature(p, Const(v)) == Signature(p, Const(w)) <==> NumberText(p, v) == NumberText(p, w)
  {
    if Signature(p, Const(v)) == Signature(p, Const(w)) {
      Text.PrefixInjective("const:", NumberText(p, v), NumberText(p, w));
    }
  }

  lemma {:induction false} BinaryExactly(p: Printer, op: Op, a0: Expr, a1: Expr, op': Op, b0: Expr, b1: Expr)
    requires PrinterOk(p) && Printable(p, a0) && Printable(p, a1) && Printable(p, b0) && Printable(p, b1)
    requires Signature(p, a0) == Signature(p, b0) <==> SameUpToSwaps(a0, b0)
    requires Signature(p, a1) == Signature(p, b1) <==> SameUpToSwaps(a1, b1)
    requires Signature(p, a0) == Signature(p, b1) <==> SameUpToSwaps(a0, b1)
    requires Signature(p, a1) == Signature(p, b0) <==> SameUpToSwaps(a1, b0)
    ensures Signature(p, Binary(op, a0, a1)) == Signature(p, Binary(op', b0, b1))
       <==> SameUpToSwaps(Binary(op, a0, a1), Binary(op', b0, b1))
  {
    var s, t := Signature(p, Binary(op, a0, a1)), Signature(p, Binary(op', b0, b1));
    SignatureStarts(p, Binary(op, a0, a1));
    SignatureStarts(p, Binary(op', b0, b1));
    if op == Pow || op' == Pow {
      if s == t { PowerRead(p, a0, a1, "", b0, b1, ""); }
    } else {
      BinaryText(p, op, a0, a1);
      BinaryText(p, op', b0, b1);
      hide Signature;
      if s == t { JoinedRead(p, op, a0, a1, "", op', b0, b1, ""); }
      if op == op' { SortedPairs(p, op, a0, a1, b0, b1); }
    }
  }

  /** One way to write the floats that are whole or one half. */
  function PlainText(r: real): string {
    if Whole(r) then IntText(r.Floor) + ".0" else "0.5"
  }

  lemma {:induction false} PlainTextShape(r: real)
    ensures Fractional(PlainText(r)) && ')' !in PlainText(r)
    ensures Whole(r) <==> PlainText(r)[|PlainText(r)| - 1] == '0'
    ensures !Whole(r) ==> Token(PlainText(r))
  {
    var t := PlainText(r);
    if Whole(r) {
      var s := IntText(r.Floor);
      IntTextShape(r.Floor);
      TokenCloses(s);
      assert t[|s|] == '.' && t[|s| + 1] == '0';
      forall i | 0 <= i < |t| ensures t[i] != ')' {
        if i < |s| { assert t[i] == s[i]; }
      }
    } else {
      assert t == ['0', '.', '5'] && t[1] == '.';
    }
  }

  lemma {:induction false} PlainTextInjective(r: real, s: real)
    requires Whole(r) && Whole(s) && PlainText(r) == PlainText(s)
    ensures r == s
  {
    Text.SuffixInjective(IntText(r.Floor), IntText(s.Floor), ".0");
    IntTextInjective(r.Floor, s.Floor);
  }

  /** There is something for these conventions to be about: the floats that are whole or one half. */
  lemma {:induction false} SomePrinter()
    ensures exists p :: PrinterOk(p) && p.float(0.5) && p.float(2.0)
  {
    var p := Printer((r: real) => Whole(r) || r == 0.5, PlainText, "");
    forall r: real
      ensures Fractional(PlainText(r)) && ')' !in PlainText(r) && (!Whole(r) ==> Token(PlainText(r)))
    {
      PlainTextShape(r);
    }
    forall r: real, s: real | p.float(r) && p.float(s) && PlainText(r) == PlainText(s) ensures r == s {
      PlainTextShape(r);
      PlainTextShape(s);
      if Whole(r) { PlainTextInjective(r, s); }
    }
    hide PlainText, Token, Fractional;
    assert PrinterOk(p);
  }

  /** Both succeed with one value, or both fail. */
  predicate SameOutcome(r: Result<real, EvalError>, r': Result<real, EvalError>) {
    if r.Ok? then r == r' else r'.Err?
  }

  /** Expressions judged redundant evaluate alike in every environment. */
  lemma {:induction false} SwapsKeepValue(a: Expr, b: Expr, values: Values)
    requires SameUpToSwaps(a, b)
    ensures SameOutcome(Eval(a, values), Eval(b, values))
  {
    match (a, b)
    case (Unary(_, a0), Unary(_, b0)) => SwapsKeepValue(a0, b0, values);
    case (Binary(op, a0, a1), Binary(_, b0, b1)) =>
      if op == Pow {
        SwapsKeepValue(a0, b0, values);
      } else if SameUpToSwaps(a0, b0) && SameUpToSwaps(a1, b1) {
        SwapsKeepValue(a0, b0, values);
        SwapsKeepValue(a1, b1, values);
      } else {
        SwapsKeepValue(a0, b1, values);
        SwapsKeepValue(a1, b0, values);
      }
    case _ =>
  }

  /** `expressions_are_equivalent`: same variables and same signature. */
  predicate Equivalent(p: Printer, a: Expr, b: Expr) {
    Names(a) == Names(b) && Signature(p, a) == Signature(p, b)
  }

  lemma {:induction false} SwapsKeepNames(a: Expr, b: Expr)
    requires SameUpToSwaps(a, b)
    ensures Names(a) == Names(b)
  {
    match (a, b)
    case (Unary(_, a0), Unary(_, b0)) => SwapsKeepNames(a0, b0);
    case (Binary(op, a0, a1), Binary(_, b0, b1)) =>
      if op == Pow {
        SwapsKeepNames(a0, b0);
      } else if SameUpToSwaps(a0, b0) && SameUpToSwaps(a1, b1) {
        SwapsKeepNames(a0, b0);
        SwapsKeepNames(a1, b1);
      } else {
        SwapsKeepNames(a0, b1);
        SwapsKeepNames(a1, b0);
      }
    case _ =>
  }

  /** The variable check adds nothing to the signature check, and equivalence is sound. */
  lemma {:induction false} EquivalenceIsSound(p: Printer, a: Expr, b: Expr, values: Values)
    requires PrinterOk(p) && Printable(p, a) && Printable(p, b)
    ensures Equivalent(p, a, b) <==> SameUpToSwaps(a, b)
    ensures Equivalent(p, a, b) ==> SameOutcome(Eval(a, values), Eval(b, values))
  {
    SignatureExactly(p, a, b);
    if SameUpToSwaps(a, b) {
      SwapsKeepNames(a, b);
      SwapsKeepValue(a, b, values);
    }
  }
}
