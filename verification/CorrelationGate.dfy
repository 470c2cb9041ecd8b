/** Which dependence settings reach the Cholesky loop with a matrix it can factor. */
module CorrelationGate {
  import opened Wrappers
  import opened Reals
  import opened Cholesky
  import opened Dependences

  /** Unit variances and one common correlation. */
  function Equicorrelation(n: nat, r: real): (m: Matrix)
    ensures |m| == n && forall i :: 0 <= i < n ==> |m[i]| == n
    ensures forall i, j :: 0 <= i < n && 0 <= j < n ==> m[i][j] == if i == j then 1.0 else r
  {
    seq(n, i => seq(n, j => if i == j then 1.0 else r))
  }

  /** The entries written once rows below `i` are done and row `i` is done up to column `j`. */
  predicate Written(i: nat, j: nat, a: nat, b: nat) {
    var low := if a <= b then a else b;
    var high := if a <= b then b else a;
    low < i || (low == i && high < j)
  }

  ghost predicate Filled(m: Matrix, n: nat, r: real, i: nat, j: nat) {
    && |m| == n
    && (forall a :: 0 <= a < n ==> |m[a]| == n)
    && (forall a, b :: 0 <= a < n && 0 <= b < n && Written(i, j, a, b) ==> m[a][b] == if a == b then 1.0 else r)
  }

  method BuildCorrelationMatrix(dimension: nat, offDiagonal: real) returns (matrix: Matrix)
    ensures matrix == Equicorrelation(dimension, offDiagonal)
  {
    matrix := Zeros(dimension);
    for i := 0 to dimension
      invariant Filled(matrix, dimension, offDiagonal, i, i)
    {
      matrix := matrix[i := matrix[i][i := 1.0]];
      for j := i + 1 to dimension
        invariant Filled(matrix, dimension, offDiagonal, i, j)
      {
        matrix := matrix[i := matrix[i][j := offDiagonal]];
        matrix := matrix[j := matrix[j][i := offDiagonal]];
      }
    }
    forall a, b | 0 <= a < dimension && 0 <= b < dimension
      ensures matrix[a][b] == Equicorrelation(dimension, offDiagonal)[a][b]
    {
      assert Written(dimension, dimension, a, b);
    }
    forall a | 0 <= a < dimension ensures matrix[a] == Equicorrelation(dimension, offDiagonal)[a] {}
  }

  // --- the pivots of an equicorrelation matrix --------------------------------------------

  /** `1 + (k - 1) r`, whose sign decides everything. */
  function Lead(r: real, k: nat): real {
    1.0 + Times(k as real - 1.0, r)
  }

  lemma {:induction false} LeadStep(r: real, k: nat)
    ensures Lead(r, k + 1) == Lead(r, k) + r
  {
  }

  /** What the pivot of row `k` is, when every pivot before it was positive. */
  function Pivot(r: real, k: nat): real
    requires Lead(r, k) != 0.0
  {
    Over(Times(1.0 - r, Lead(r, k + 1)), Lead(r, k))
  }

  /** The elimination of one column: `Q` squared over `P` is what the next pivot loses. */
  lemma {:induction false} PivotLoss(u: real, r: real, d: real, p: real, p': real)
    requires d != 0.0
    requires Times(p, d) == Times(u, d + r) && Times(p', d + r) == Times(u, d + r + r)
    ensures Times(p - u, p - u) == Times(p - p', p)
  {
    var e, f := d + r, d + r + r;
    assert (p - u) * d == u * r;
    assert ((p - u) * d) * ((p - u) * d) == (u * r) * (u * r);
    assert (p - p') * d == u * e - p' * d;
    assert ((p - p') * d) * (p * d) == (u * e - p' * d) * (u * e);
    assert (u * e - p' * d) * (u * e) == (u * u) * (e * e) - (p' * e) * (u * d);
    assert (p' * e) * (u * d) == (u * f) * (u * d);
    assert (u * f) * (u * d) == (u * u) * (f * d);
    assert e * e - f * d == r * r;
    assert (u * u) * (e * e) - (u * u) * (f * d) == (u * u) * (r * r);
    assert (u * u) * (r * r) == (u * r) * (u * r);
    SquareOut(p - u, p - u, p - p', p, d);
  }

  lemma {:induction false} SquareOut(a: real, b: real, x: real, y: real, d: real)
    requires d != 0.0 && Times(Times(a, d), Times(b, d)) == Times(Times(x, d), Times(y, d))
    ensures Times(a, b) == Times(x, y)
  {
    NonzeroProduct(d, d);
    hide Times;
    Regroup(a, d, b, d);
    Regroup(x, d, y, d);
    CancelRight(Times(a, b), Times(x, y), Times(d, d));
  }

  lemma {:induction false} PivotStep(r: real, k: nat)
    requires Lead(r, k) != 0.0 && Lead(r, k + 1) != 0.0
    ensures Times(Pivot(r, k) - (1.0 - r), Pivot(r, k) - (1.0 - r))
         == Times(Pivot(r, k) - Pivot(r, k + 1), Pivot(r, k))
  {
    LeadStep(r, k);
    LeadStep(r, k + 1);
    var u := 1.0 - r;
    hide Lead;
    QuotientUnique(Times(u, Lead(r, k + 1)), Lead(r, k), 0.0);
    QuotientUnique(Times(u, Lead(r, k + 2)), Lead(r, k + 1), 0.0);
    PivotLoss(u, r, Lead(r, k), Pivot(r, k), Pivot(r, k + 1));
  }

  lemma {:induction false} FirstPivot(r: real)
    requires r < 1.0
    ensures Lead(r, 0) == 1.0 - r && Lead(r, 1) == 1.0 && Pivot(r, 0) == 1.0
  {
    QuotientUnique(Times(1.0 - r, Lead(r, 1)), Lead(r, 0), 1.0);
  }

  /** After a positive start, a pivot is positive exactly when the next leading term is. */
  lemma {:induction false} PivotSign(r: real, k: nat)
    requires r < 1.0 && Lead(r, k) > 0.0
    ensures Pivot(r, k) > 0.0 <==> Lead(r, k + 1) > 0.0
  {
    var p, d, u, e := Pivot(r, k), Lead(r, k), 1.0 - r, Lead(r, k + 1);
    QuotientUnique(Times(u, e), d, 0.0);
    assert p * d == u * e;
    if p > 0.0 {
      assert p * d > 0.0;
      if e <= 0.0 { NonpositiveProduct(u, e); }
    }
    if e > 0.0 {
      assert u * e > 0.0;
      if p <= 0.0 { NonpositiveProduct(d, p); }
    }
  }

  lemma {:induction false} NonpositiveProduct(x: real, y: real)
    requires x > 0.0 && y <= 0.0
    ensures x * y <= 0.0 && y * x <= 0.0
  {
  }

  // --- a factor exists exactly when the last leading term is positive ---------------------

  lemma {:induction false} ColumnProduct(x: real, y: real, d: real, q: real, p: real, p': real)
    requires d != 0.0 && Times(x, d) == q && Times(y, d) == q && Times(d, d) == p
    requires Times(q, q) == Times(p - p', p)
    ensures Times(x, y) == p - p'
  {
    hide Times;
    TimesOne(d);
    Associate(p - p', d, d);
    SquareOut(x, y, p - p', 1.0, d);
    TimesOne(p - p');
  }

  /** Whatever factor there is, its columns are forced: the rows below agree on every partial product. */
  lemma {:induction false} ColumnsForced(g: Matrix, r: real, n: nat, j: nat)
    requires r < 1.0 && j <= n && IsFactor(g, Equicorrelation(n, r), n)
    ensures Lead(r, j) > 0.0
    ensures forall a, b :: j <= a < n && j <= b < n ==> Dot(g[a], g[b], j) == 1.0 - Pivot(r, j)
  {
    if j == 0 {
      FirstPivot(r);
    } else {
      var k := j - 1;
      ColumnsForced(g, r, n, k);
      var p, d := Pivot(r, k), g[k][k];
      assert Dot(g[k], g[k], k + 1) == 1.0;
      assert Times(d, d) == p;
      SquarePositive(d);
      PivotSign(r, k);
      PivotStep(r, k);
      forall a, b | j <= a < n && j <= b < n ensures Dot(g[a], g[b], j) == 1.0 - Pivot(r, j) {
        assert Dot(g[a], g[k], k + 1) == r && Dot(g[b], g[k], k + 1) == r;
        assert Dot(g[a], g[k], k) == 1.0 - p && Dot(g[b], g[k], k) == 1.0 - p && Dot(g[a], g[b], k) == 1.0 - p;
        ColumnProduct(g[a][k], g[b][k], d, p - (1.0 - r), p, Pivot(r, j));
      }
    }
  }

  lemma {:induction false} LeadBetween(r: real, k: nat, n: nat)
    requires k <= n && r < 1.0 && Lead(r, n) > 0.0
    ensures Lead(r, k) > 0.0
    decreases n
  {
    if k < n {
      LeadStep(r, n - 1);
      if r >= 0.0 { LeadPositive(r, n - 1); }
      LeadBetween(r, k, n - 1);
    }
  }

  lemma {:induction false} LeadPositive(r: real, n: nat)
    requires 0.0 <= r < 1.0
    ensures Lead(r, n) > 0.0
  {
    if n > 0 {
      LeadStep(r, n - 1);
      LeadPositive(r, n - 1);
    }
  }

  /** The factor the loop computes, in closed form. */
  function ClosedEntry(r: real, sqrt: real -> real, i: nat, j: nat): real
    requires IsSqrt(sqrt) && r < 1.0 && Lead(r, j) > 0.0 && Lead(r, j + 1) > 0.0
  {
    PivotSign(r, j);
    var p := Pivot(r, j);
    if i == j then sqrt(p) else Over(p - (1.0 - r), sqrt(p))
  }

  function ClosedFactor(n: nat, r: real, sqrt: real -> real): (g: Matrix)
    requires IsSqrt(sqrt) && r < 1.0 && (forall k: nat :: k <= n ==> Lead(r, k) > 0.0)
    ensures Square(g, n)
  {
    seq(n, (i: int) requires 0 <= i < n => seq(n, (j: int) requires 0 <= j < n =>
      if j > i then 0.0 else ClosedEntry(r, sqrt, i, j)))
  }

  lemma {:induction false} ClosedEntryProducts(r: real, sqrt: real -> real, j: nat, a: nat, b: nat)
    requires IsSqrt(sqrt) && r < 1.0 && Lead(r, j) > 0.0 && Lead(r, j + 1) > 0.0 && j < a && j < b
    ensures ClosedEntry(r, sqrt, j, j) > 0.0
    ensures Times(ClosedEntry(r, sqrt, j, j), ClosedEntry(r, sqrt, j, j)) == Pivot(r, j)
    ensures Times(ClosedEntry(r, sqrt, a, j), ClosedEntry(r, sqrt, j, j)) == Pivot(r, j) - (1.0 - r)
    ensures Times(ClosedEntry(r, sqrt, a, j), ClosedEntry(r, sqrt, b, j)) == Pivot(r, j) - Pivot(r, j + 1)
  {
    PivotSign(r, j);
    PivotStep(r, j);
    var p := Pivot(r, j);
    var d := sqrt(p);
    QuotientUnique(p - (1.0 - r), d, 0.0);
    var c := Over(p - (1.0 - r), d);
    ColumnProduct(c, c, d, p - (1.0 - r), p, Pivot(r, j + 1));
  }

  lemma {:induction false} ClosedDot(n: nat, r: real, sqrt: real -> real, a: nat, b: nat, k: nat)
    requires IsSqrt(sqrt) && r < 1.0 && (forall k: nat :: k <= n ==> Lead(r, k) > 0.0)
    requires k <= a < n && k <= b < n
    ensures Dot(ClosedFactor(n, r, sqrt)[a], ClosedFactor(n, r, sqrt)[b], k) == 1.0 - Pivot(r, k)
  {
    if k == 0 {
      FirstPivot(r);
    } else {
      ClosedDot(n, r, sqrt, a, b, k - 1);
      ClosedEntryProducts(r, sqrt, k - 1, a, b);
    }
  }

  lemma {:induction false} ClosedFactorIsFactor(n: nat, r: real, sqrt: real -> real)
    requires IsSqrt(sqrt) && r < 1.0 && (forall k: nat :: k <= n ==> Lead(r, k) > 0.0)
    ensures IsFactor(ClosedFactor(n, r, sqrt), Equicorrelation(n, r), n)
  {
    var g := ClosedFactor(n, r, sqrt);
    forall i | 0 <= i < n ensures g[i][i] > 0.0 { ClosedEntryProducts(r, sqrt, i, i + 1, i + 1); }
    forall i, j | 0 <= j <= i < n ensures Dot(g[i], g[j], j + 1) == Equicorrelation(n, r)[i][j] {
      ClosedDot(n, r, sqrt, i, j, j);
      ClosedEntryProducts(r, sqrt, j, if i == j then j + 1 else i, j + 1);
    }
  }

  /** An equicorrelation matrix has a factor exactly when `1 + (n - 1) r` is positive. */
  lemma {:induction false} FactorExistsExactly(n: nat, r: real, sqrt: real -> real)
    requires IsSqrt(sqrt) && r < 1.0
    ensures HasFactor(Equicorrelation(n, r), n) <==> Lead(r, n) > 0.0
  {
    if HasFactor(Equicorrelation(n, r), n) {
      var g :| IsFactor(g, Equicorrelation(n, r), n);
      ColumnsForced(g, r, n, n);
    }
    if Lead(r, n) > 0.0 {
      forall k: nat | k <= n ensures Lead(r, k) > 0.0 { LeadBetween(r, k, n); }
      ClosedFactorIsFactor(n, r, sqrt);
    }
  }

  // --- the gate ------------------------------------------------------------------------

  /** The guard of the negative case: a bound on the strength, none below two leaves. */
  predicate NegativeGatePasses(correlation: real, n: nat) {
    n <= 1 || correlation < Over(1.0, n as real - 1.0)
  }

  lemma {:induction false} GateIsLead(correlation: real, n: nat)
    requires -1.0 < correlation < 1.0
    ensures NegativeGatePasses(correlation, n) <==> Lead(-correlation, n) > 0.0
  {
    hide Times, Over;
    if n <= 1 {
      LeadSmall(correlation, n);
    } else {
      var w := n as real - 1.0;
      var limit := Over(1.0, w);
      QuotientUnique(1.0, w, 0.0);
      LeadAgainstLimit(correlation, w, limit);
      assert Lead(-correlation, n) == Times(w, limit - correlation);
      if correlation < limit {
        PositiveProduct(w, limit - correlation);
      } else {
        NonpositiveTimes(w, limit - correlation);
      }
    }
  }

  lemma {:induction false} NonpositiveTimes(x: real, y: real)
    requires x > 0.0 && y <= 0.0
    ensures Times(x, y) <= 0.0
  {
    NonpositiveProduct(x, y);
  }

  lemma {:induction false} LeadSmall(correlation: real, n: nat)
    requires -1.0 < correlation < 1.0 && n <= 1
    ensures Lead(-correlation, n) > 0.0
  {
  }

  lemma {:induction false} LeadAgainstLimit(correlation: real, w: real, limit: real)
    requires Times(limit, w) == 1.0
    ensures 1.0 + Times(w, -correlation) == Times(w, limit - correlation)
  {
    assert w * (limit - correlation) == limit * w - w * correlation;
  }

  /** For correlated leaves under negative dependence the gate lets through exactly the matrices
      the Cholesky loop can factor. */
  lemma {:induction false} GateExact(correlation: real, n: nat, sqrt: real -> real)
    requires -1.0 < correlation < 1.0 && IsSqrt(sqrt)
    ensures NegativeGatePasses(correlation, n)
       <==> HasFactor(Equicorrelation(n, -correlation), n)
  {
    GateIsLead(correlation, n);
    FactorExistsExactly(n, -correlation, sqrt);
  }

  datatype Marginal = Constant | Fitted | Undeclared

  /** What becomes of a request for a joint sample. */
  datatype Route = NoLeaves | RefusedByGate | RefusedByFactor | ScenarioOnly | Sampled

  function OffDiagonal(dependence: Dependence, correlation: real): real {
    match dependence
    case Positive => correlation
    case Negative => -correlation
    case _ => 0.0
  }

  method CountMarginals(leaves: seq<Marginal>) returns (fitted: nat, undeclared: nat, uncertain: nat)
    ensures fitted == multiset(leaves)[Fitted] && undeclared == multiset(leaves)[Undeclared]
    ensures uncertain == fitted + undeclared
  {
    fitted, undeclared, uncertain := 0, 0, 0;
    for i := 0 to |leaves|
      invariant fitted == multiset(leaves[..i])[Fitted] && undeclared == multiset(leaves[..i])[Undeclared]
      invariant uncertain == fitted + undeclared
    {
      assert leaves[..i + 1] == leaves[..i] + [leaves[i]];
      if leaves[i].Fitted? { fitted := fitted + 1; }
      if leaves[i].Undeclared? { undeclared := undeclared + 1; }
      if !leaves[i].Constant? { uncertain := uncertain + 1; }
    }
    assert leaves[..|leaves|] == leaves;
  }

  /** Only the gate can refuse a negative correlation; a positive setting carrying a strength at or
      below `-1/(n-1)` meets no gate and is refused inside the Cholesky loop. */
  method RouteJointSample(leaves: seq<Marginal>, dependence: Dependence, correlation: real, sqrt: real -> real)
    returns (route: Route)
    requires -1.0 < correlation < 1.0 && IsSqrt(sqrt)
    ensures route == NoLeaves <==> leaves == []
    ensures route == RefusedByGate
       <==> && dependence == Negative && Undeclared !in leaves
            && !NegativeGatePasses(correlation, multiset(leaves)[Fitted])
    ensures route == RefusedByFactor
       <==> && dependence == Positive && Undeclared !in leaves
            && !NegativeGatePasses(-correlation, multiset(leaves)[Fitted])
    ensures route == ScenarioOnly
       <==> Undeclared in leaves || (dependence == Unknown && multiset(leaves)[Fitted] > 1)
  {
    if |leaves| == 0 { return NoLeaves; }
    var fitted, undeclared, uncertain := CountMarginals(leaves);
    assert undeclared > 0 <==> Undeclared in leaves;
    if undeclared > 0 { return ScenarioOnly; }
    if dependence == Negative && fitted > 1 && !NegativeGatePasses(correlation, fitted) { return RefusedByGate; }
    if uncertain >= 2 && dependence == Unknown { return ScenarioOnly; }
    var off := OffDiagonal(dependence, correlation);
    if off != 0.0 && fitted > 1 {
      var matrix := BuildCorrelationMatrix(fitted, off);
      var factor := Factorise(matrix, sqrt);
      GateIsLead(-off, fitted);
      FactorExistsExactly(fitted, off, sqrt);
      if factor.None? { return RefusedByFactor; }
    } else if dependence == Positive && fitted > 1 {
      GateIsLead(-correlation, fitted);
    }
    route := Sampled;
  }

  /** Three fitted leaves declared positive with strength -0.9: the setting meets no gate, and there is no
      factor for the loop to find; declared negative with strength 0.9, the same matrix fails the gate. */
  lemma {:induction false} PositiveWithNegativeStrength()
    ensures OffDiagonal(Positive, -0.9) == OffDiagonal(Negative, 0.9)
    ensures !NegativeGatePasses(0.9, multiset([Fitted, Fitted, Fitted])[Fitted])
    ensures !HasFactor(Equicorrelation(3, OffDiagonal(Positive, -0.9)), 3)
  {
    if g :| IsFactor(g, Equicorrelation(3, -0.9), 3) {
      hide Dot, Triangular;
      ColumnsForced(g, -0.9, 3, 3);
    }
    assert Over(1.0, 2.0) == 0.5;
  }
}
