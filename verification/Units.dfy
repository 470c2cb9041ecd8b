/** Compound units: sparse exponent maps and their arithmetic, and what rescaling base units does. */
module Units {
  import opened Reals

  type CompoundUnit = map<string, int>

  const DIMENSIONLESS: CompoundUnit := map[]

  function Exponent(u: CompoundUnit, l: string): int {
    if l in u then u[l] else 0
  }

  /** Drop zero exponents. */
  function Normalise(u: CompoundUnit): CompoundUnit {
    map l | l in u && u[l] != 0 :: u[l]
  }

  /** Two units denote the same dimension. */
  predicate Close(a: CompoundUnit, b: CompoundUnit) {
    Normalise(a) == Normalise(b)
  }

  function Multiply(a: CompoundUnit, b: CompoundUnit): CompoundUnit {
    Normalise(map l | l in a.Keys + b.Keys :: Exponent(a, l) + Exponent(b, l))
  }

  function Divide(a: CompoundUnit, b: CompoundUnit): CompoundUnit {
    Normalise(map l | l in a.Keys + b.Keys :: Exponent(a, l) - Exponent(b, l))
  }

  function Power(a: CompoundUnit, n: int): CompoundUnit {
    Normalise(map l | l in a :: a[l] * n)
  }

  lemma {:induction false} ExponentLaws(a: CompoundUnit, b: CompoundUnit, n: int, l: string)
    ensures Exponent(Multiply(a, b), l) == Exponent(a, l) + Exponent(b, l)
    ensures Exponent(Divide(a, b), l) == Exponent(a, l) - Exponent(b, l)
    ensures Exponent(Power(a, n), l) == Exponent(a, l) * n
  {
  }

  /** Closeness is agreement on every exponent. */
  lemma {:induction false} CloseExactly(a: CompoundUnit, b: CompoundUnit)
    ensures Close(a, b) <==> forall l :: Exponent(a, l) == Exponent(b, l)
  {
    if Close(a, b) {
      forall l ensures Exponent(a, l) == Exponent(b, l) {
        assert Exponent(a, l) == Exponent(Normalise(a), l) && Exponent(b, l) == Exponent(Normalise(b), l);
      }
    }
    if forall l :: Exponent(a, l) == Exponent(b, l) {
      var na, nb := Normalise(a), Normalise(b);
      forall l ensures (l in na <==> l in nb) && (l in na && l in nb ==> na[l] == nb[l]) {
        assert Exponent(a, l) == Exponent(b, l);
      }
      assert na == nb;
    }
  }

  function ExponentSum(units: seq<CompoundUnit>, l: string): int {
    if units == [] then 0 else ExponentSum(units[..|units| - 1], l) + Exponent(units[|units| - 1], l)
  }

  /** The binary product is the accumulated product of two factors. */
  lemma {:induction false} MultiplyIsSum(a: CompoundUnit, b: CompoundUnit, l: string)
    ensures Exponent(Multiply(a, b), l) == ExponentSum([a, b], l)
  {
    ExponentLaws(a, b, 0, l);
    assert [a, b][..1] == [a] && [a][..0] == [];
    assert ExponentSum([a], l) == Exponent(a, l);
  }

  lemma {:induction false} PairProduct(a: CompoundUnit, b: CompoundUnit, units: seq<CompoundUnit>,
                                       product: CompoundUnit)
    requires units == [a, b] && (forall l :: l in product ==> product[l] != 0)
    requires forall l :: Exponent(product, l) == ExponentSum(units, l)
    ensures product == Multiply(a, b)
  {
    forall l ensures Exponent(product, l) == Exponent(Multiply(a, b), l) { MultiplyIsSum(a, b, l); }
    CloseExactly(product, Multiply(a, b));
    assert Normalise(product) == product && Normalise(Multiply(a, b)) == Multiply(a, b);
  }

  /** Accumulate the factors' exponents label by label, then drop the zeros. */
  method MultiplyUnits(units: seq<CompoundUnit>) returns (product: CompoundUnit)
    ensures forall l :: Exponent(product, l) == ExponentSum(units, l)
    ensures forall l :: l in product ==> product[l] != 0
    ensures |units| == 2 ==> product == Multiply(units[0], units[1])
  {
    var combined: CompoundUnit := map[];
    for i := 0 to |units|
      invariant forall l :: Exponent(combined, l) == ExponentSum(units[..i], l)
    {
      var labels := units[i].Keys;
      ghost var before := combined;
      while labels != {}
        invariant labels <= units[i].Keys
        invariant forall l :: Exponent(combined, l) ==
                              Exponent(before, l) + if l in units[i].Keys - labels then units[i][l] else 0
        decreases |labels|
      {
        var key :| key in labels;
        combined := combined[key := Exponent(combined, key) + units[i][key]];
        labels := labels - {key};
      }
      assert units[..i + 1][..i] == units[..i];
    }
    assert units[..|units|] == units;
    product := Normalise(combined);
    assert forall l :: Exponent(product, l) == Exponent(combined, l);
    if |units| == 2 { PairProduct(units[0], units[1], units, product); }
  }

  lemma {:induction false} DivideFrom(numerator: CompoundUnit, denominator: CompoundUnit, combined: CompoundUnit)
    requires forall l :: Exponent(combined, l) == Exponent(numerator, l) - Exponent(denominator, l)
    ensures Normalise(combined) == Divide(numerator, denominator)
  {
    forall l ensures Exponent(combined, l) == Exponent(Divide(numerator, denominator), l) {
      ExponentLaws(numerator, denominator, 0, l);
    }
    CloseExactly(combined, Divide(numerator, denominator));
    assert Normalise(Divide(numerator, denominator)) == Divide(numerator, denominator);
  }

  method DivideUnits(numerator: CompoundUnit, denominator: CompoundUnit) returns (quotient: CompoundUnit)
    ensures quotient == Divide(numerator, denominator)
  {
    var combined := numerator;
    var labels := denominator.Keys;
    while labels != {}
      invariant labels <= denominator.Keys
      invariant forall l :: l in labels ==> Exponent(combined, l) == Exponent(numerator, l)
      invariant forall l :: l !in labels ==> Exponent(combined, l) == Exponent(numerator, l) - Exponent(denominator, l)
      decreases |labels|
    {
      var key :| key in labels;
      combined := combined[key := Exponent(combined, key) - denominator[key]];
      labels := labels - {key};
    }
    DivideFrom(numerator, denominator, combined);
    quotient := Normalise(combined);
  }

  // --- rescaling base units --------------------------------------------------------

  type Scale = string -> real

  ghost predicate Positive(s: Scale) {
    forall l :: s(l) > 0.0
  }

  /** The number a quantity of unit `u` is multiplied by when each listed base unit is rescaled. */
  ghost function Factor(s: Scale, labels: seq<string>, u: CompoundUnit): real
    requires Positive(s)
  {
    if labels == [] then 1.0
    else Times(IntPow(s(labels[0]), Exponent(u, labels[0])), Factor(s, labels[1..], u))
  }

  lemma {:induction false} FactorPositive(s: Scale, labels: seq<string>, u: CompoundUnit)
    requires Positive(s)
    ensures Factor(s, labels, u) > 0.0
  {
    if labels == [] {
    } else {
      IntPowPositive(s(labels[0]), Exponent(u, labels[0]));
      FactorPositive(s, labels[1..], u);
    }
  }

  lemma {:induction false} FactorDimensionless(s: Scale, labels: seq<string>, u: CompoundUnit)
    requires Positive(s) && forall l :: Exponent(u, l) == 0
    ensures Factor(s, labels, u) == 1.0
  {
    if labels == [] {
    } else {
      FactorDimensionless(s, labels[1..], u);
    }
  }

  /** Close units rescale alike. */
  lemma {:induction false} FactorClose(s: Scale, labels: seq<string>, a: CompoundUnit, b: CompoundUnit)
    requires Positive(s) && Close(a, b)
    ensures Factor(s, labels, a) == Factor(s, labels, b)
  {
    CloseExactly(a, b);
    if labels == [] {
    } else {
      FactorClose(s, labels[1..], a, b);
    }
  }

  /** Multiplying units multiplies their factors. */
  lemma {:induction false} FactorMultiply(s: Scale, labels: seq<string>, a: CompoundUnit, b: CompoundUnit)
    requires Positive(s)
    ensures Factor(s, labels, Multiply(a, b)) == Times(Factor(s, labels, a), Factor(s, labels, b))
  {
    hide Times, IntPow, Multiply;
    if labels == [] {
      TimesOne(1.0);
    } else {
      var l, rest, x := labels[0], labels[1..], s(labels[0]);
      FactorMultiply(s, rest, a, b);
      ExponentLaws(a, b, 0, l);
      IntPowSum(x, Exponent(a, l), Exponent(b, l));
      Regroup(IntPow(x, Exponent(a, l)), IntPow(x, Exponent(b, l)), Factor(s, rest, a), Factor(s, rest, b));
    }
  }

  /** Dividing units divides their factors. */
  lemma {:induction false} FactorDivide(s: Scale, labels: seq<string>, a: CompoundUnit, b: CompoundUnit)
    requires Positive(s)
    ensures Factor(s, labels, b) > 0.0
    ensures Times(Factor(s, labels, Divide(a, b)), Factor(s, labels, b)) == Factor(s, labels, a)
  {
    hide Times, Factor, Multiply, Divide, Close;
    FactorPositive(s, labels, b);
    forall l ensures Exponent(Multiply(Divide(a, b), b), l) == Exponent(a, l) {
      ExponentLaws(a, b, 0, l);
      ExponentLaws(Divide(a, b), b, 0, l);
    }
    CloseExactly(Multiply(Divide(a, b), b), a);
    FactorClose(s, labels, Multiply(Divide(a, b), b), a);
    FactorMultiply(s, labels, Divide(a, b), b);
  }

  /** Raising a unit to an integer power raises its factor to that power. */
  lemma {:induction false} FactorPower(s: Scale, labels: seq<string>, a: CompoundUnit, n: int)
    requires Positive(s)
    ensures Factor(s, labels, a) > 0.0
    ensures Factor(s, labels, Power(a, n)) == IntPow(Factor(s, labels, a), n)
  {
    FactorPositive(s, labels, a);
    if labels == [] {
      OnePow(n);
    } else {
      hide IntPow, Power, Times;
      var l, rest, x := labels[0], labels[1..], s(labels[0]);
      FactorPositive(s, rest, a);
      FactorPower(s, rest, a, n);
      ExponentLaws(a, a, n, l);
      IntPowPower(x, Exponent(a, l), n);
      IntPowProduct(IntPow(x, Exponent(a, l)), Factor(s, rest, a), n);
    }
  }
}
