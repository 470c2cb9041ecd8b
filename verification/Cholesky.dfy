/** The Cholesky loop of the Gaussian copula: it succeeds exactly on matrices that have a factor. */
module Cholesky {
  import opened Wrappers
  import opened Reals

  type Matrix = seq<seq<real>>

  ghost predicate Square(m: Matrix, n: nat) {
    |m| == n && forall i :: 0 <= i < n ==> |m[i]| == n
  }

  ghost predicate Symmetric(m: Matrix, n: nat)
    requires Square(m, n)
  {
    forall i, j :: 0 <= i < n && 0 <= j < n ==> m[i][j] == m[j][i]
  }

  /** The product of the first `k` entries of two rows. */
  function Dot(a: seq<real>, b: seq<real>, k: nat): real
    requires k <= |a| && k <= |b|
  {
    if k == 0 then 0.0 else Dot(a, b, k - 1) + Times(a[k - 1], b[k - 1])
  }

  lemma {:induction false} DotCongruence(a: seq<real>, b: seq<real>, a': seq<real>, b': seq<real>, k: nat)
    requires k <= |a| && k <= |b| && k <= |a'| && k <= |b'|
    requires forall i :: 0 <= i < k ==> a[i] == a'[i] && b[i] == b'[i]
    ensures Dot(a, b, k) == Dot(a', b', k)
  {
    if k > 0 { DotCongruence(a, b, a', b', k - 1); }
  }

  lemma {:induction false} DotCommutes(a: seq<real>, b: seq<real>, k: nat)
    requires k <= |a| && k <= |b|
    ensures Dot(a, b, k) == Dot(b, a, k)
  {
    if k > 0 {
      DotCommutes(a, b, k - 1);
      Commute(a[k - 1], b[k - 1]);
    }
  }

  /** Past the diagonal of a triangular factor nothing is added. */
  lemma {:induction false} DotZeroTail(a: seq<real>, b: seq<real>, k: nat, n: nat)
    requires k <= n <= |a| && n <= |b|
    requires forall i :: k <= i < n ==> b[i] == 0.0
    ensures Dot(a, b, n) == Dot(a, b, k)
  {
    if n > k { DotZeroTail(a, b, k, n - 1); }
  }

  /** `g` is lower triangular with positive diagonal. */
  ghost predicate Triangular(g: Matrix, n: nat) {
    && Square(g, n)
    && (forall i, j :: 0 <= i < j < n ==> g[i][j] == 0.0)
    && (forall i :: 0 <= i < n ==> g[i][i] > 0.0)
  }

  /** `g` times its transpose gives back the lower half of `m`, entry by entry. */
  ghost predicate IsFactor(g: Matrix, m: Matrix, n: nat)
    requires Square(m, n)
  {
    Triangular(g, n) && forall i, j :: 0 <= j <= i < n ==> Dot(g[i], g[j], j + 1) == m[i][j]
  }

  ghost predicate HasFactor(m: Matrix, n: nat)
    requires Square(m, n)
  {
    exists g :: IsFactor(g, m, n)
  }

  /** For a symmetric matrix the whole product comes back. */
  lemma {:induction false} FactorReproduces(g: Matrix, m: Matrix, n: nat, i: nat, j: nat)
    requires Square(m, n) && Symmetric(m, n) && IsFactor(g, m, n) && i < n && j < n
    ensures Dot(g[i], g[j], n) == m[i][j]
  {
    if j <= i {
      DotZeroTail(g[i], g[j], j + 1, n);
    } else {
      DotCommutes(g[i], g[j], n);
      DotZeroTail(g[j], g[i], i + 1, n);
    }
  }

  /** The square root the loop is given. */
  ghost predicate IsSqrt(sqrt: real -> real) {
    forall x :: x > 0.0 ==> sqrt(x) > 0.0 && Times(sqrt(x), sqrt(x)) == x
  }

  /** Entry (a, b) of a partial factor is settled: rows below `i`, and row `i` up to column `j`. */
  predicate Done(i: nat, j: nat, a: nat, b: nat) {
    b <= a && (a < i || (a == i && b < j))
  }

  ghost predicate Partial(l: Matrix, m: Matrix, n: nat, i: nat, j: nat)
    requires Square(m, n)
  {
    && Square(l, n)
    && (forall a, b :: 0 <= a < b < n ==> l[a][b] == 0.0)
    && (forall a, b :: 0 <= b <= a < n && Done(i, j, a, b) ==> Dot(l[a], l[b], b + 1) == m[a][b])
    && (forall a :: 0 <= a < n && Done(i, j, a, a) ==> l[a][a] > 0.0)
  }

  lemma {:induction false} EqualSquares(x: real, y: real)
    requires x > 0.0 && y > 0.0 && Times(x, x) == Times(y, y)
    ensures x == y
  {
    assert (x - y) * (x + y) == 0.0;
    if x != y {
      NonzeroProduct(x - y, x + y);
      assert false;
    }
  }

  /** A factor, if there is one, agrees with everything the loop has settled. */
  lemma {:induction false} FactorAgrees(g: Matrix, l: Matrix, m: Matrix, n: nat, i: nat, j: nat, a: nat, b: nat)
    requires Square(m, n) && IsFactor(g, m, n) && Partial(l, m, n, i, j)
    requires b <= a < n && Done(i, j, a, b)
    ensures g[a][b] == l[a][b]
    decreases a, b
  {
    forall k | 0 <= k < b ensures g[a][k] == l[a][k] && g[b][k] == l[b][k] {
      FactorAgrees(g, l, m, n, i, j, a, k);
      FactorAgrees(g, l, m, n, i, j, b, k);
    }
    DotCongruence(g[a], g[b], l[a], l[b], b);
    assert Times(g[a][b], g[b][b]) == Times(l[a][b], l[b][b]);
    if a == b {
      EqualSquares(g[a][a], l[a][a]);
    } else {
      FactorAgrees(g, l, m, n, i, j, b, b);
      CancelRight(g[a][b], l[a][b], g[b][b]);
    }
  }

  lemma {:induction false} PositiveProduct(x: real, y: real)
    requires x > 0.0 && y > 0.0
    ensures Times(x, y) > 0.0
  {
    assert x * y > 0.0;
  }

  lemma {:induction false} SquarePositive(x: real)
    requires x != 0.0
    ensures Times(x, x) > 0.0
  {
    if x > 0.0 {
      PositiveProduct(x, x);
    } else {
      PositiveProduct(-x, -x);
      assert x * x == (-x) * (-x);
    }
  }

  /** At a non-positive pivot no factor can exist. */
  lemma {:induction false} NoFactorAtPivot(l: Matrix, m: Matrix, n: nat, i: nat, g: Matrix)
    requires Square(m, n) && i < n && Partial(l, m, n, i, i)
    requires m[i][i] - Dot(l[i], l[i], i) <= 0.0
    ensures !IsFactor(g, m, n)
  {
    if IsFactor(g, m, n) {
      forall k | 0 <= k < i ensures g[i][k] == l[i][k] {
        FactorAgrees(g, l, m, n, i, i, i, k);
      }
      DotCongruence(g[i], g[i], l[i], l[i], i);
      SquarePositive(g[i][i]);
      PivotClash(g, m, n, i);
    }
  }

  lemma {:induction false} PivotClash(g: Matrix, m: Matrix, n: nat, i: nat)
    requires Square(m, n) && i < n && IsFactor(g, m, n)
    ensures m[i][i] - Dot(g[i], g[i], i) > 0.0
  {
    SquarePositive(g[i][i]);
    assert Dot(g[i], g[i], i + 1) == m[i][i];
  }

  function Zeros(n: nat): (z: Matrix)
    ensures |z| == n && forall i :: 0 <= i < n ==> |z[i]| == n && forall j :: 0 <= j < n ==> z[i][j] == 0.0
  {
    seq(n, _ => seq(n, _ => 0.0))
  }

  lemma {:induction false} ZerosPartial(m: Matrix, n: nat)
    requires Square(m, n)
    ensures Partial(Zeros(n), m, n, 0, 0)
  {
  }

  /** Settling one more entry keeps the rest. */
  lemma {:induction false} SetEntry(l: Matrix, m: Matrix, n: nat, i: nat, j: nat, v: real)
    requires Square(m, n) && j <= i < n && Partial(l, m, n, i, j)
    requires Dot(l[i], l[j], j) + Times(v, if i == j then v else l[j][j]) == m[i][j]
    requires i == j ==> v > 0.0
    ensures Partial(l[i := l[i][j := v]], m, n, i, j + 1)
  {
    hide Times;
    var l' := l[i := l[i][j := v]];
    forall a, b | 0 <= b <= a < n && Done(i, j + 1, a, b)
      ensures Dot(l'[a], l'[b], b + 1) == m[a][b]
    {
      if a == i && b == j {
        DotCongruence(l'[i], l'[j], l[i], l[j], j);
      } else {
        assert Done(i, j, a, b);
        DotCongruence(l'[a], l'[b], l[a], l[b], b + 1);
      }
    }
  }

  lemma {:induction false} NextRow(l: Matrix, m: Matrix, n: nat, i: nat)
    requires Square(m, n) && i < n && Partial(l, m, n, i, i + 1)
    ensures Partial(l, m, n, i + 1, 0)
  {
    forall a, b | 0 <= b <= a < n && Done(i + 1, 0, a, b) ensures Dot(l[a], l[b], b + 1) == m[a][b] {
      assert Done(i, i + 1, a, b);
    }
    forall a | 0 <= a < n && Done(i + 1, 0, a, a) ensures l[a][a] > 0.0 {
      assert Done(i, i + 1, a, a);
    }
  }

  lemma {:induction false} AllSettled(l: Matrix, m: Matrix, n: nat)
    requires Square(m, n) && Partial(l, m, n, n, 0)
    ensures IsFactor(l, m, n)
  {
    forall a, b | 0 <= b <= a < n ensures Dot(l[a], l[b], b + 1) == m[a][b] {
      assert Done(n, 0, a, b);
    }
    forall a | 0 <= a < n ensures l[a][a] > 0.0 {
      assert Done(n, 0, a, a);
    }
  }

  /** What is left of an entry once the products of the settled columns are taken off. */
  method Residual(entry: real, left: seq<real>, right: seq<real>, j: nat) returns (total: real)
    requires j <= |left| && j <= |right|
    ensures total == entry - Dot(left, right, j)
  {
    hide Times;
    total := entry;
    for k := 0 to j
      invariant total == entry - Dot(left, right, k)
    {
      total := total - Times(left[k], right[k]);
    }
  }

  /** The lower-triangular factor, or an error at the first non-positive pivot.  It succeeds if and
      only if a factor exists, and then returns it. */
  method Factorise(matrix: Matrix, sqrt: real -> real) returns (factor: Option<Matrix>)
    requires Square(matrix, |matrix|) && IsSqrt(sqrt)
    ensures factor.Some? <==> HasFactor(matrix, |matrix|)
    ensures factor.Some? ==> IsFactor(factor.value, matrix, |matrix|)
  {
    hide Times, Over, Dot, IsFactor, Partial;
    var n := |matrix|;
    var l := Zeros(n);
    ZerosPartial(matrix, n);
    for i := 0 to n
      invariant Square(l, n)
      invariant Partial(l, matrix, n, i, 0)
    {
      for j := 0 to i + 1
        invariant Square(l, n)
        invariant Partial(l, matrix, n, i, j)
      {
        var total := Residual(matrix[i][j], l[i], l[j], j);
        if i == j {
          if total <= 0.0 {
            forall g ensures !IsFactor(g, matrix, n) { NoFactorAtPivot(l, matrix, n, i, g); }
            return None;
          }
          SetEntry(l, matrix, n, i, j, sqrt(total));
          l := l[i := l[i][j := sqrt(total)]];
        } else {
          DiagonalSettled(l, matrix, n, i, j);
          QuotientUnique(total, l[j][j], 0.0);
          SetEntry(l, matrix, n, i, j, Over(total, l[j][j]));
          l := l[i := l[i][j := Over(total, l[j][j])]];
        }
      }
      NextRow(l, matrix, n, i);
    }
    AllSettled(l, matrix, n);
    factor := Some(l);
  }

  lemma {:induction false} DiagonalSettled(l: Matrix, m: Matrix, n: nat, i: nat, j: nat)
    requires Square(m, n) && j < i < n && Partial(l, m, n, i, j)
    ensures Square(l, n) && l[j][j] > 0.0
  {
    assert Done(i, j, j, j);
  }
}
