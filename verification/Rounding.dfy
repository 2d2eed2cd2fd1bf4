/**
 * Decimal coefficients as Python's decimal context rounds them: to a number of
 * significant digits, halfway cases to the even neighbour.
 */
module Rounding {
  /** A finite decimal: sign, coefficient, exponent. */
  datatype Decimal = Decimal(negative: bool, coefficient: nat, exponent: int)

  function Pow10(k: nat): (r: nat)
    ensures r >= 1
  {
    if k == 0 then 1 else 10 * Pow10(k - 1)
  }

  lemma {:induction false} Pow10Add(a: nat, b: nat)
    ensures Pow10(a + b) == Pow10(a) * Pow10(b)
    decreases b
  {
    if b > 0 {
      Pow10Add(a, b - 1);
      Regroup(Pow10(a), Pow10(b - 1));
    }
  }

  lemma Regroup(x: int, y: int)
    ensures 10 * (x * y) == x * (10 * y)
  {
  }

  lemma Associate(x: int, y: int, z: int)
    ensures x * (y * z) == (x * y) * z
  {
  }

  lemma {:induction false} Pow10Monotone(a: nat, b: nat)
    requires a <= b
    ensures Pow10(a) <= Pow10(b)
    decreases b
  {
    if a < b {
      Pow10Monotone(a, b - 1);
    }
  }

  /** How many of a number's digits are beyond the first `prec`: what rounding drops. */
  function Excess(m: nat, prec: nat): (drop: nat)
    ensures m < Pow10(prec + drop)
    ensures drop > 0 ==> Pow10(prec + drop - 1) <= m
  {
    if m < Pow10(prec) then 0 else Excess(m / 10, prec) + 1
  }

  lemma ExcessUnique(m: nat, prec: nat, drop: nat)
    requires m < Pow10(prec + drop) && (drop > 0 ==> Pow10(prec + drop - 1) <= m)
    ensures Excess(m, prec) == drop
  {
    var d := Excess(m, prec);
    if d < drop {
      Pow10Monotone(prec + d, prec + drop - 1);
    } else if d > drop {
      Pow10Monotone(prec + drop, prec + d - 1);
    }
  }

  /** The multiple of `unit` nearest to m, as a quotient; halfway, the even one. */
  function HalfEven(m: nat, unit: nat): nat
    requires unit > 0
  {
    var q, r := m / unit, m % unit;
    if 2 * r < unit || (2 * r == unit && q % 2 == 0) then q else q + 1
  }

  /** The value of a coefficient after rounding to `prec` significant digits. */
  function Round(m: nat, prec: nat): nat {
    var unit := Pow10(Excess(m, prec));
    HalfEven(m, unit) * unit
  }

  lemma Divide(m: nat, unit: nat)
    requires unit > 0
    ensures m == (m / unit) * unit + m % unit && 0 <= m % unit < unit
  {
  }

  lemma NextMultiple(q: nat, unit: nat)
    ensures (q + 1) * unit == q * unit + unit
  {
  }

  lemma HalfEvenNear(m: nat, unit: nat)
    requires unit > 0
    ensures var v := HalfEven(m, unit) * unit; 2 * v <= 2 * m + unit && 2 * m <= 2 * v + unit
  {
    Divide(m, unit);
    NextMultiple(m / unit, unit);
  }

  /** The quotient nearest to m, and at equal distance the even one. */
  predicate NearestEven(m: nat, unit: nat, q: nat) {
    && 2 * m <= 2 * (q * unit) + unit && 2 * (q * unit) <= 2 * m + unit
    && (2 * m == 2 * (q * unit) + unit || 2 * (q * unit) == 2 * m + unit ==> q % 2 == 0)
  }

  /** Rounding is to the nearest, and from halfway to the even neighbour; nothing else is. */
  lemma HalfEvenIff(m: nat, unit: nat, q: nat)
    requires unit > 0
    ensures HalfEven(m, unit) == q <==> NearestEven(m, unit, q)
  {
    HalfEvenNearest(m, unit);
    if NearestEven(m, unit, q) {
      NearestUnique(m, unit, q, HalfEven(m, unit));
    }
  }

  lemma HalfEvenNearest(m: nat, unit: nat)
    requires unit > 0
    ensures NearestEven(m, unit, HalfEven(m, unit))
  {
    Divide(m, unit);
    NextMultiple(m / unit, unit);
  }

  lemma NearestUnique(m: nat, unit: nat, p: nat, q: nat)
    requires unit > 0 && NearestEven(m, unit, p) && NearestEven(m, unit, q)
    ensures p == q
  {
    if p < q {
      NearestOrdered(m, unit, p, q);
    } else if q < p {
      NearestOrdered(m, unit, q, p);
    }
  }

  lemma NearestOrdered(m: nat, unit: nat, p: nat, q: nat)
    requires unit > 0 && NearestEven(m, unit, p) && NearestEven(m, unit, q)
    ensures p >= q
  {
    if p < q {
      NextMultiple(p, unit);
      Scale(p + 1, q, unit);
      if p + 1 < q {
        NextMultiple(p + 1, unit);
        Scale(p + 2, q, unit);
      }
    }
  }

  /** The value after rounding: that quotient of the digits kept, at the place of the first digit dropped. */
  lemma RoundMeans(m: nat, prec: nat) returns (q: nat)
    ensures Round(m, prec) == q * Pow10(Excess(m, prec)) && NearestEven(m, Pow10(Excess(m, prec)), q)
  {
    q := HalfEven(m, Pow10(Excess(m, prec)));
    HalfEvenIff(m, Pow10(Excess(m, prec)), q);
  }

  lemma RoundExact(m: nat, prec: nat)
    requires m < Pow10(prec)
    ensures Round(m, prec) == m
  {
    assert Excess(m, prec) == 0 && Pow10(0) == 1;
    assert m / 1 == m && m % 1 == 0;
  }

  /** Relative accuracy: the error is at most one part in 2 * 10^(prec-1). */
  lemma RoundNear(m: nat, prec: nat)
    requires prec > 0
    ensures var k := 2 * Pow10(prec - 1);
            Round(m, prec) * k <= m * (k + 1) && m * (k - 1) <= Round(m, prec) * k
  {
    var drop := Excess(m, prec);
    var p := Pow10(prec - 1);
    if drop == 0 {
      RoundExact(m, prec);
      Spread(m, 2 * p);
    } else {
      var unit := Pow10(drop);
      HalfEvenNear(m, unit);
      Pow10Add(prec - 1, drop);
      assert prec + drop - 1 == (prec - 1) + drop;
      assert p * unit <= m;
      Relative(m, Round(m, prec), unit, p);
    }
  }

  lemma Spread(m: nat, k: nat)
    ensures m * k <= m * (k + 1) && m * (k - 1) <= m * k
  {
    assert m * (k + 1) == m * k + m && m * (k - 1) == m * k - m;
  }

  lemma Relative(m: nat, v: nat, unit: nat, p: nat)
    requires 2 * v <= 2 * m + unit && 2 * m <= 2 * v + unit && p * unit <= m
    ensures v * (2 * p) <= m * (2 * p + 1) && m * (2 * p - 1) <= v * (2 * p)
  {
    Scale(2 * v, 2 * m + unit, p);
    Scale(2 * m, 2 * v + unit, p);
    assert (2 * v) * p == v * (2 * p) && (2 * m) * p == m * (2 * p);
    assert (2 * m + unit) * p == m * (2 * p) + p * unit && (2 * v + unit) * p == v * (2 * p) + p * unit;
    assert m * (2 * p + 1) == m * (2 * p) + m && m * (2 * p - 1) == m * (2 * p) - m;
  }

  lemma Scale(a: nat, b: nat, p: nat)
    requires a <= b
    ensures a * p <= b * p
  {
  }

  lemma HalfEvenMonotone(a: nat, b: nat, unit: nat)
    requires a <= b && unit > 0
    ensures HalfEven(a, unit) <= HalfEven(b, unit)
  {
    Divide(a, unit);
    Divide(b, unit);
    var qa, qb := a / unit, b / unit;
    if qa > qb {
      Scale(qb + 1, qa, unit);
      NextMultiple(qb, unit);
    } else if qa < qb {
      assert HalfEven(a, unit) <= qa + 1 <= qb;
    }
  }

  lemma RoundBounds(m: nat, prec: nat)
    ensures Round(m, prec) <= Pow10(prec + Excess(m, prec))
    ensures Excess(m, prec) > 0 && prec > 0 ==> Pow10(prec + Excess(m, prec) - 1) <= Round(m, prec)
  {
    RoundAtMost(m, prec);
    if Excess(m, prec) > 0 && prec > 0 {
      RoundAtLeast(m, prec);
    }
  }

  lemma RoundAtMost(m: nat, prec: nat)
    ensures Round(m, prec) <= Pow10(prec + Excess(m, prec))
  {
    var drop := Excess(m, prec);
    var unit := Pow10(drop);
    Pow10Add(prec, drop);
    HalfEvenMonotone(m, Pow10(prec) * unit, unit);
    Whole(Pow10(prec), unit);
    Scale(HalfEven(m, unit), Pow10(prec), unit);
  }

  lemma RoundAtLeast(m: nat, prec: nat)
    requires Excess(m, prec) > 0 && prec > 0
    ensures Pow10(prec + Excess(m, prec) - 1) <= Round(m, prec)
  {
    var drop := Excess(m, prec);
    var unit := Pow10(drop);
    Pow10Add(prec - 1, drop);
    assert prec + drop - 1 == (prec - 1) + drop;
    HalfEvenMonotone(Pow10(prec - 1) * unit, m, unit);
    Whole(Pow10(prec - 1), unit);
    Scale(Pow10(prec - 1), HalfEven(m, unit), unit);
  }

  lemma Whole(q: nat, unit: nat)
    requires unit > 0
    ensures HalfEven(q * unit, unit) == q
  {
    QuotientIs(q, 0, unit);
  }

  /** Rounding keeps order, across different numbers of dropped digits too. */
  lemma RoundMonotone(a: nat, b: nat, prec: nat)
    requires a <= b && prec > 0
    ensures Round(a, prec) <= Round(b, prec)
  {
    var da, db := Excess(a, prec), Excess(b, prec);
    if da == db {
      RoundTogether(a, b, prec);
    } else if da < db {
      RoundBounds(a, prec);
      RoundBounds(b, prec);
      Pow10Monotone(prec + da, prec + db - 1);
    } else {
      Pow10Monotone(prec + db, prec + da - 1);
    }
  }

  lemma RoundTogether(a: nat, b: nat, prec: nat)
    requires a <= b && Excess(a, prec) == Excess(b, prec)
    ensures Round(a, prec) <= Round(b, prec)
  {
    var unit := Pow10(Excess(a, prec));
    HalfEvenMonotone(a, b, unit);
    Scale(HalfEven(a, unit), HalfEven(b, unit), unit);
  }

  lemma HalfEvenTen(m: nat, unit: nat)
    requires unit > 0
    ensures HalfEven(10 * m, 10 * unit) == HalfEven(m, unit)
  {
    Divide(m, unit);
    Divide(10 * m, 10 * unit);
    var q, k := m / unit, (10 * m) / (10 * unit);
    Regroup(q, unit);
    Regroup(k, unit);
    if k < q {
      Scale(k + 1, q, 10 * unit);
      NextMultiple(k, 10 * unit);
    } else if k > q {
      Scale(q + 1, k, 10 * unit);
      NextMultiple(q, 10 * unit);
    }
  }

  lemma RoundTen(m: nat, prec: nat)
    requires prec > 0
    ensures Round(10 * m, prec) == 10 * Round(m, prec)
  {
    var drop := Excess(m, prec);
    if m == 0 {
      RoundExact(0, prec);
    } else if 10 * m < Pow10(prec) {
      RoundExact(m, prec);
      RoundExact(10 * m, prec);
    } else {
      ExcessUnique(10 * m, prec, drop + 1);
      assert Pow10(drop + 1) == 10 * Pow10(drop);
      HalfEvenTen(m, Pow10(drop));
      Regroup(HalfEven(m, Pow10(drop)), Pow10(drop));
    }
  }

  /** Rounding looks at significant digits only: trailing zeros never matter. */
  lemma {:induction false} RoundScale(m: nat, prec: nat, k: nat)
    requires prec > 0
    ensures Round(m * Pow10(k), prec) == Round(m, prec) * Pow10(k)
  {
    if k > 0 {
      RoundScale(m, prec, k - 1);
      RoundTen(m * Pow10(k - 1), prec);
      Regroup(m, Pow10(k - 1));
      Regroup(Round(m, prec), Pow10(k - 1));
    }
  }

  lemma RoundPositive(m: nat, prec: nat)
    requires prec > 0
    ensures Round(m, prec) == 0 <==> m == 0
  {
    if m == 0 || Excess(m, prec) == 0 {
      RoundExact(m, prec);
    } else {
      RoundBounds(m, prec);
    }
  }

  /** A rounded value is not changed by rounding it again. */
  lemma RoundIdempotent(m: nat, prec: nat)
    requires prec > 0
    ensures Round(Round(m, prec), prec) == Round(m, prec)
  {
    var drop := Excess(m, prec);
    var q := HalfEven(m, Pow10(drop));
    RoundBounds(m, prec);
    Pow10Add(prec, drop);
    RoundScale(q, prec, drop);
    if q > Pow10(prec) {
      Scale(Pow10(prec) + 1, q, Pow10(drop));
      NextMultiple(Pow10(prec), Pow10(drop));
    } else if q == Pow10(prec) {
      RoundScale(1, prec, prec);
      Pow10Monotone(1, prec);
      RoundExact(1, prec);
    } else {
      RoundExact(q, prec);
    }
  }

  predicate RoundsTo(m: nat, prec: nat, v: nat) { Round(m, prec) == v }

  predicate DropsOne(n: nat, prec: nat) { Round(Pow10(n) + 1, prec) == Pow10(n) }

  /** One more than a power of ten, with more digits than the precision, rounds to the power. */
  lemma AlmostPower(n: nat, prec: nat)
    requires 0 < prec <= n
    ensures RoundsTo(Pow10(n) + 1, prec, Pow10(n))
  {
    AlmostPowerSum(n, prec, prec - 1, n + 1 - prec);
  }

  lemma AlmostPowerSum(n: nat, prec: nat, a: nat, drop: nat)
    requires drop > 0 && a + drop == n && a + 1 == prec
    ensures DropsOne(n, prec)
  {
    AlmostPowerExcess(a, drop);
    Pow10Add(a, drop);
    BigUnit(drop);
    RoundNearlyWhole(Pow10(a + drop) + 1, a + 1, Pow10(drop), Pow10(a));
    assert DropsOne(a + drop, a + 1);
  }

  lemma AlmostPowerExcess(a: nat, drop: nat)
    requires drop > 0
    ensures Excess(Pow10(a + drop) + 1, a + 1) == drop
  {
    assert Pow10(a + 1 + drop) == 10 * Pow10(a + drop);
    ExcessUnique(Pow10(a + drop) + 1, a + 1, drop);
  }

  lemma BigUnit(drop: nat)
    requires drop > 0
    ensures Pow10(drop) > 2
  {
  }

  /** One less than a whole number of large units rounds up to it, as the whole number itself does. */
  lemma RoundJustBelow(m: nat, prec: nat, unit: nat, q: nat)
    requires prec > 0 && Pow10(Excess(m, prec)) == unit && m + 1 == q * unit && q > 0 && unit > 2
    ensures Round(m, prec) == m + 1 && Round(m + 1, prec) == m + 1
  {
    JustBelow(m, q, unit);
    RoundIdempotent(m, prec);
  }

  lemma JustBelow(m: nat, q: nat, unit: nat)
    requires unit > 2 && q > 0 && m + 1 == q * unit
    ensures HalfEven(m, unit) == q
  {
    var before := q - 1;
    NextMultiple(before, unit);
    QuotientIs(before, unit - 1, unit);
  }

  lemma QuotientIs(q: nat, r: nat, unit: nat)
    requires r < unit
    ensures (q * unit + r) / unit == q && (q * unit + r) % unit == r
  {
    Divide(q * unit + r, unit);
    var k := (q * unit + r) / unit;
    if k < q {
      Scale(k + 1, q, unit);
      NextMultiple(k, unit);
    } else if k > q {
      Scale(q + 1, k, unit);
      NextMultiple(q, unit);
    }
  }

  lemma RoundNearlyWhole(m: nat, prec: nat, unit: nat, q: nat)
    requires Pow10(Excess(m, prec)) == unit && m == q * unit + 1 && unit > 2
    ensures Round(m, prec) == m - 1
  {
    NearlyWhole(q, unit);
  }

  lemma NearlyWhole(q: nat, unit: nat)
    requires unit > 2
    ensures HalfEven(q * unit + 1, unit) == q
  {
    QuotientIs(q, 1, unit);
  }
}
