/** Products, quotients and integer powers of reals, named so that proofs can treat them
    symbolically and leave the solver's nonlinear arithmetic to the few lemmas here. */
module Reals {
  function Times(x: real, y: real): real {
    x * y
  }

  function Over(x: real, y: real): real
    requires y != 0.0
  {
    x / y
  }

  lemma {:induction false} Associate(a: real, b: real, c: real)
    ensures Times(a, Times(b, c)) == Times(Times(a, b), c)
  {
  }

  lemma {:induction false} Commute(a: real, b: real)
    ensures Times(a, b) == Times(b, a)
  {
  }

  lemma {:induction false} TimesOne(a: real)
    ensures Times(a, 1.0) == a && Times(1.0, a) == a
  {
  }

  lemma {:induction false} NonzeroProduct(x: real, y: real)
    requires x != 0.0 && y != 0.0
    ensures Times(x, y) != 0.0
  {
    var r := 1.0 / x;
    assert r * x == 1.0;
    Associate(r, x, y);
  }

  lemma {:induction false} CancelRight(a: real, b: real, c: real)
    requires c != 0.0 && Times(a, c) == Times(b, c)
    ensures a == b
  {
    assert Times(a - b, c) == 0.0;
    if a != b {
      NonzeroProduct(a - b, c);
      assert false;
    }
  }

  /** The quotient is the number whose product with the divisor is the dividend. */
  lemma {:induction false} QuotientUnique(a: real, b: real, q: real)
    requires b != 0.0
    ensures Times(Over(a, b), b) == a
    ensures Times(q, b) == a ==> Over(a, b) == q
  {
    var d := a / b;
    assert d * b == a;
    if Times(q, b) == a { CancelRight(d, q, b); }
  }

  lemma {:induction false} Regroup(a: real, b: real, c: real, d: real)
    ensures Times(Times(a, b), Times(c, d)) == Times(Times(a, c), Times(b, d))
  {
    hide Times;
    Associate(Times(a, b), c, d);
    Associate(a, b, c);
    Commute(b, c);
    Associate(a, c, b);
    Associate(Times(a, c), b, d);
  }

  // --- integer powers ---------------------------------------------------------------

  function NatPow(x: real, n: nat): real {
    if n == 0 then 1.0 else x * NatPow(x, n - 1)
  }

  lemma {:induction false} NatPowNonzero(x: real, n: nat)
    requires x != 0.0
    ensures NatPow(x, n) != 0.0
  {
    if n == 0 {
    } else {
      NatPowNonzero(x, n - 1);
    }
  }

  /** `x ** n` for an integer exponent; zero has no negative powers. */
  function IntPow(x: real, n: int): real
    requires n >= 0 || x != 0.0
  {
    if n >= 0 then NatPow(x, n)
    else
      NatPowNonzero(x, -n);
      Over(1.0, NatPow(x, -n))
  }

  lemma {:induction false} NatPowPositive(x: real, n: nat)
    requires x > 0.0
    ensures NatPow(x, n) > 0.0
  {
    if n == 0 {
    } else {
      NatPowPositive(x, n - 1);
      assert x * NatPow(x, n - 1) > 0.0;
    }
  }

  lemma {:induction false} IntPowPositive(x: real, n: int)
    requires x > 0.0
    ensures IntPow(x, n) > 0.0
  {
    if n >= 0 {
      NatPowPositive(x, n);
    } else {
      NatPowPositive(x, -n);
    }
  }

  lemma {:induction false} NatPowStep(x: real, n: nat)
    ensures NatPow(x, n + 1) == Times(x, NatPow(x, n)) == Times(NatPow(x, n), x)
  {
  }

  /** One more factor, whatever the sign of the exponent. */
  lemma {:induction false} IntPowStep(x: real, n: int)
    requires x != 0.0
    ensures IntPow(x, n + 1) == Times(IntPow(x, n), x)
  {
    hide Times;
    if n >= 0 {
      NatPowStep(x, n);
    } else {
      var k := -n - 1;
      NatPowStep(x, k);
      NatPowNonzero(x, k);
      NatPowNonzero(x, k + 1);
      ReciprocalStep(x, NatPow(x, k), NatPow(x, k + 1));
    }
  }

  lemma {:induction false} ReciprocalStep(x: real, p: real, xp: real)
    requires x != 0.0 && p != 0.0 && xp == Times(x, p) && xp != 0.0
    ensures Over(1.0, p) == Times(Over(1.0, xp), x)
  {
    hide Times;
    QuotientUnique(1.0, xp, Over(1.0, xp));
    Associate(Over(1.0, xp), x, p);
    QuotientUnique(1.0, p, Times(Over(1.0, xp), x));
  }

  /** Appending one more factor to both sides of `p == a * b` loses nothing. */
  lemma {:induction false} ExtendProduct(p: real, a: real, b: real, x: real)
    requires x != 0.0
    ensures p == Times(a, b) <==> Times(p, x) == Times(a, Times(b, x))
  {
    hide Times;
    Associate(a, b, x);
    if Times(p, x) == Times(a, Times(b, x)) {
      CancelRight(p, Times(a, b), x);
    }
  }

  lemma {:induction false} IntPowSum(x: real, m: int, n: int)
    requires x > 0.0
    ensures IntPow(x, m + n) == Times(IntPow(x, m), IntPow(x, n))
    decreases if n >= 0 then n else -n
  {
    hide Times;
    if n == 0 {
      TimesOne(IntPow(x, m));
    } else {
      var k := if n > 0 then n - 1 else n;
      IntPowSum(x, m, if n > 0 then n - 1 else n + 1);
      hide IntPow;
      IntPowStep(x, m + k);
      IntPowStep(x, k);
      ExtendProduct(IntPow(x, m + k), IntPow(x, m), IntPow(x, k), x);
    }
  }

  lemma {:induction false} NatPowProduct(x: real, y: real, n: nat)
    ensures NatPow(Times(x, y), n) == Times(NatPow(x, n), NatPow(y, n))
  {
    hide Times;
    if n == 0 {
      TimesOne(1.0);
    } else {
      NatPowProduct(x, y, n - 1);
      NatPowStep(x, n - 1);
      NatPowStep(y, n - 1);
      NatPowStep(Times(x, y), n - 1);
      Regroup(x, y, NatPow(x, n - 1), NatPow(y, n - 1));
    }
  }

  lemma {:induction false} IntPowProduct(x: real, y: real, n: int)
    requires n >= 0 || (x != 0.0 && y != 0.0)
    ensures n < 0 ==> Times(x, y) != 0.0
    ensures IntPow(Times(x, y), n) == Times(IntPow(x, n), IntPow(y, n))
  {
    hide Times;
    if n >= 0 {
      NatPowProduct(x, y, n);
    } else {
      NonzeroProduct(x, y);
      NatPowProduct(x, y, -n);
      NatPowNonzero(x, -n);
      NatPowNonzero(y, -n);
      ReciprocalProduct(NatPow(x, -n), NatPow(y, -n));
    }
  }

  lemma {:induction false} ReciprocalProduct(p: real, q: real)
    requires p != 0.0 && q != 0.0
    ensures Times(p, q) != 0.0 && Over(1.0, Times(p, q)) == Times(Over(1.0, p), Over(1.0, q))
  {
    hide Times;
    NonzeroProduct(p, q);
    Regroup(Over(1.0, p), Over(1.0, q), p, q);
    QuotientUnique(1.0, p, 1.0);
    QuotientUnique(1.0, q, 1.0);
    TimesOne(1.0);
    QuotientUnique(1.0, Times(p, q), Times(Over(1.0, p), Over(1.0, q)));
  }

  lemma {:induction false} IntPowPower(x: real, m: int, n: int)
    requires x > 0.0
    ensures IntPow(x, m) > 0.0 && IntPow(IntPow(x, m), n) == IntPow(x, m * n)
    decreases if n >= 0 then n else -n
  {
    hide Times;
    IntPowPositive(x, m);
    if n != 0 {
      var y := IntPow(x, m);
      var k := if n > 0 then n - 1 else n;
      IntPowPower(x, m, if n > 0 then n - 1 else n + 1);
      hide IntPow;
      IntPowStep(y, k);
      assert m * k + m == m * (k + 1);
      IntPowSum(x, m * k, m);
      if Times(IntPow(y, k), y) == Times(IntPow(x, m * k), y) {
        CancelRight(IntPow(y, k), IntPow(x, m * k), y);
      }
    }
  }

  lemma {:induction false} OnePow(n: int)
    ensures IntPow(1.0, n) == 1.0
    decreases if n >= 0 then n else -n
  {
    if n > 0 {
      OnePow(n - 1);
      IntPowStep(1.0, n - 1);
    } else if n < 0 {
      OnePow(n + 1);
      IntPowStep(1.0, n);
    }
  }
}
