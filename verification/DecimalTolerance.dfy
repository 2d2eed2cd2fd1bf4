/**
 * The numeric evaluator's comparison: rounded decimal arithmetic against the exact
 * inequality |parsed - reference| <= max(absolute, relative * |reference|).
 */
module DecimalTolerance {
  import opened Rounding

  function Min(a: int, b: int): int { if a <= b then a else b }

  function Max(a: int, b: int): int { if a >= b then a else b }

  function Abs(x: int): nat { if x < 0 then -x else x }

  /** The value of a coefficient at an exponent, counted in units of 10^lo. */
  function At(coefficient: nat, exponent: int, lo: int): nat
    requires lo <= exponent
  {
    Times(coefficient, Pow10(exponent - lo))
  }

  function Times(x: nat, y: nat): nat { x * y }

  /** A decimal's signed value in units of 10^lo. */
  function Units(d: Decimal, lo: int): int
    requires lo <= d.exponent
  {
    (if d.negative then -1 else 1) * At(d.coefficient, d.exponent, lo)
  }

  /** Comparison of two decimals' magnitudes, exact whatever their exponents. */
  predicate LeqAt(c1: nat, e1: int, c2: nat, e2: int) {
    var lo := Min(e1, e2);
    At(c1, e1, lo) <= At(c2, e2, lo)
  }

  /** len(d.as_tuple().digits). */
  function DigitCount(m: nat): nat { Excess(m, 1) + 1 }

  function Precision(p: Decimal, r: Decimal, a: Decimal, t: Decimal): (prec: nat)
    ensures prec >= 60
  {
    Max(50, Max(DigitCount(p.coefficient), Max(DigitCount(r.coefficient), Max(DigitCount(a.coefficient), DigitCount(t.coefficient))))) + 10
  }

  /** abs(parsed - reference) as the context computes it: the coefficient at the smaller exponent, rounded. */
  function Difference(p: Decimal, r: Decimal, prec: nat): nat {
    Round(Abs(Units(p, Min(p.exponent, r.exponent)) - Units(r, Min(p.exponent, r.exponent))), prec)
  }

  /** relative_tolerance * abs(reference) as the context computes it: reference rounded, then the product. */
  function RelativeAllowance(r: Decimal, t: Decimal, prec: nat): nat {
    Round(Times(t.coefficient, Round(r.coefficient, prec)), prec)
  }

  /** max(absolute_tolerance, relative allowance): the second only when strictly greater. */
  function Allowed(r: Decimal, a: Decimal, t: Decimal, prec: nat): Decimal {
    var relative := Decimal(false, RelativeAllowance(r, t, prec), t.exponent + r.exponent);
    if LeqAt(relative.coefficient, relative.exponent, a.coefficient, a.exponent) then a else relative
  }

  /** The score. */
  predicate Correct(p: Decimal, r: Decimal, a: Decimal, t: Decimal) {
    var prec := Precision(p, r, a, t);
    var allowed := Allowed(r, a, t, prec);
    LeqAt(Difference(p, r, prec), Min(p.exponent, r.exponent), allowed.coefficient, allowed.exponent)
  }

  // ----- The exact specification -----

  /** |p - r| in units of 10^lo. */
  function Gap(p: Decimal, r: Decimal, lo: int): nat
    requires lo <= p.exponent && lo <= r.exponent
  {
    Abs(Units(p, lo) - Units(r, lo))
  }

  /** t * |r| in units of 10^lo. */
  function RelativeBound(r: Decimal, t: Decimal, lo: int): nat
    requires lo <= t.exponent + r.exponent
  {
    At(Times(t.coefficient, r.coefficient), t.exponent + r.exponent, lo)
  }

  /** A unit small enough to count everything the comparison mentions. */
  predicate Resolves(lo: int, p: Decimal, r: Decimal, a: Decimal, t: Decimal) {
    lo <= p.exponent && lo <= r.exponent && lo <= a.exponent && lo <= t.exponent + r.exponent
  }

  predicate ExactlyWithin(p: Decimal, r: Decimal, a: Decimal, t: Decimal, lo: int)
    requires Resolves(lo, p, r, a, t)
  {
    Gap(p, r, lo) <= Max(At(a.coefficient, a.exponent, lo), RelativeBound(r, t, lo))
  }

  /** Scored correct although the exact inequality fails. */
  predicate WronglyAccepted(p: Decimal, r: Decimal, a: Decimal, t: Decimal, lo: int) {
    Resolves(lo, p, r, a, t) && Correct(p, r, a, t) && !ExactlyWithin(p, r, a, t, lo)
  }

  // ----- Changing the unit -----

  lemma Refine(c: nat, e: int, mid: int, lo: int)
    requires lo <= mid <= e
    ensures At(c, e, lo) == At(c, e, mid) * Pow10(mid - lo)
  {
    Pow10Add(e - mid, mid - lo);
    assert (e - mid) + (mid - lo) == e - lo;
    Associate(c, Pow10(e - mid), Pow10(mid - lo));
  }

  lemma Grow(d: nat, k: nat)
    requires k > 0
    ensures d * k >= d
  {
  }

  lemma Cancel(x: int, y: int, k: nat)
    requires k > 0
    ensures x * k <= y * k <==> x <= y
  {
    if x <= y {
      Grow(y - x, k);
    } else {
      Grow(x - y, k);
    }
    assert (y - x) * k == y * k - x * k && (x - y) * k == x * k - y * k;
  }

  lemma LeqIn(c1: nat, e1: int, c2: nat, e2: int, lo: int)
    requires lo <= e1 && lo <= e2
    ensures LeqAt(c1, e1, c2, e2) <==> At(c1, e1, lo) <= At(c2, e2, lo)
  {
    var mid := Min(e1, e2);
    Refine(c1, e1, mid, lo);
    Refine(c2, e2, mid, lo);
    Cancel(At(c1, e1, mid), At(c2, e2, mid), Pow10(mid - lo));
  }

  /** Rounding a coefficient at its own exponent is rounding its value in any smaller unit. */
  lemma RoundIn(c: nat, e: int, prec: nat, lo: int)
    requires lo <= e && prec > 0
    ensures At(Round(c, prec), e, lo) == Round(At(c, e, lo), prec)
  {
    RoundScale(c, prec, e - lo);
  }

  lemma GapIn(p: Decimal, r: Decimal, lo: int)
    requires lo <= p.exponent && lo <= r.exponent
    ensures var mid := Min(p.exponent, r.exponent); At(Gap(p, r, mid), mid, lo) == Gap(p, r, lo)
  {
    var mid := Min(p.exponent, r.exponent);
    Refine(p.coefficient, p.exponent, mid, lo);
    Refine(r.coefficient, r.exponent, mid, lo);
    Subtract(Units(p, mid), Units(r, mid), Pow10(mid - lo));
    Negate(At(p.coefficient, p.exponent, mid), Pow10(mid - lo));
    Negate(At(r.coefficient, r.exponent, mid), Pow10(mid - lo));
  }

  lemma Negate(x: int, k: int)
    ensures (-1 * x) * k == -1 * (x * k)
  {
  }

  lemma Subtract(x: int, y: int, k: nat)
    requires k > 0
    ensures Abs(x - y) * k == Abs(x * k - y * k)
  {
    assert (x - y) * k == x * k - y * k;
    Cancel(0, x - y, k);
  }

  lemma CountFits(m: nat, prec: nat)
    requires DigitCount(m) <= prec
    ensures m < Pow10(prec)
  {
    Pow10Monotone(DigitCount(m), prec);
  }

  predicate FitAll(p: Decimal, r: Decimal, a: Decimal, t: Decimal, digits: nat) {
    && p.coefficient < Pow10(digits) && r.coefficient < Pow10(digits)
    && a.coefficient < Pow10(digits) && t.coefficient < Pow10(digits)
  }

  /** The working precision is ten digits more than the longest coefficient needs, or than fifty. */
  lemma PrecisionIs(p: Decimal, r: Decimal, a: Decimal, t: Decimal)
    ensures var digits := Precision(p, r, a, t) - 10;
            digits >= 50 && FitAll(p, r, a, t, digits) && (digits > 50 ==> !FitAll(p, r, a, t, digits - 1))
  {
    var digits := Precision(p, r, a, t) - 10;
    CountFits(p.coefficient, digits);
    CountFits(r.coefficient, digits);
    CountFits(a.coefficient, digits);
    CountFits(t.coefficient, digits);
    if digits > 50 {
      var longest :| longest in {p.coefficient, r.coefficient, a.coefficient, t.coefficient} && DigitCount(longest) == digits;
      CountNeeds(longest, digits);
    }
  }

  lemma CountNeeds(m: nat, digits: nat)
    requires digits > 1 && DigitCount(m) == digits
    ensures Pow10(digits - 1) <= m
  {
  }

  lemma PrecisionHoldsAll(p: Decimal, r: Decimal, a: Decimal, t: Decimal)
    ensures var prec := Precision(p, r, a, t);
            && Round(r.coefficient, prec) == r.coefficient
            && Round(a.coefficient, prec) == a.coefficient
  {
    var prec := Precision(p, r, a, t);
    CountFits(r.coefficient, prec);
    CountFits(a.coefficient, prec);
    RoundExact(r.coefficient, prec);
    RoundExact(a.coefficient, prec);
  }

  lemma AllowedIn(r: Decimal, a: Decimal, t: Decimal, prec: nat, lo: int)
    requires lo <= a.exponent && lo <= t.exponent + r.exponent && prec > 0
    requires Round(r.coefficient, prec) == r.coefficient
    ensures var allowed := Allowed(r, a, t, prec);
            && lo <= allowed.exponent
            && At(allowed.coefficient, allowed.exponent, lo) ==
               Max(At(a.coefficient, a.exponent, lo), Round(RelativeBound(r, t, lo), prec))
  {
    RoundIn(Times(t.coefficient, r.coefficient), t.exponent + r.exponent, prec, lo);
    LeqIn(RelativeAllowance(r, t, prec), t.exponent + r.exponent, a.coefficient, a.exponent, lo);
  }

  /** What the rounded comparison decides, in exact terms: the rounded sides compared in any common unit. */
  lemma CorrectMeans(p: Decimal, r: Decimal, a: Decimal, t: Decimal, lo: int)
    requires Resolves(lo, p, r, a, t)
    ensures var prec := Precision(p, r, a, t);
            Correct(p, r, a, t) <==>
            Round(Gap(p, r, lo), prec) <= Max(At(a.coefficient, a.exponent, lo), Round(RelativeBound(r, t, lo), prec))
  {
    var prec := Precision(p, r, a, t);
    var mid := Min(p.exponent, r.exponent);
    PrecisionHoldsAll(p, r, a, t);
    GapIn(p, r, lo);
    RoundIn(Gap(p, r, mid), mid, prec, lo);
    AllowedIn(r, a, t, prec, lo);
    var allowed := Allowed(r, a, t, prec);
    LeqIn(Difference(p, r, prec), mid, allowed.coefficient, allowed.exponent, lo);
  }

  /** The larger of the two tolerances, exactly. */
  function Bound(r: Decimal, a: Decimal, t: Decimal, lo: int): nat
    requires lo <= a.exponent && lo <= t.exponent + r.exponent
  {
    Max(At(a.coefficient, a.exponent, lo), RelativeBound(r, t, lo))
  }

  lemma RoundMax(x: nat, y: nat, prec: nat)
    requires prec > 0
    ensures Round(Max(x, y), prec) == Max(Round(x, prec), Round(y, prec))
  {
    if x <= y {
      RoundMonotone(x, y, prec);
    } else {
      RoundMonotone(y, x, prec);
    }
  }

  /** The score compares the rounded difference with the rounded tolerance. */
  lemma CorrectCompares(p: Decimal, r: Decimal, a: Decimal, t: Decimal, lo: int)
    requires Resolves(lo, p, r, a, t)
    ensures var prec := Precision(p, r, a, t);
            Correct(p, r, a, t) <==> Round(Gap(p, r, lo), prec) <= Round(Bound(r, a, t, lo), prec)
  {
    var prec := Precision(p, r, a, t);
    CorrectMeans(p, r, a, t, lo);
    PrecisionHoldsAll(p, r, a, t);
    RoundIn(a.coefficient, a.exponent, prec, lo);
    RoundMax(At(a.coefficient, a.exponent, lo), RelativeBound(r, t, lo), prec);
  }

  /** When is an answer outside the tolerance accepted?  Exactly when rounding cannot tell the difference from the tolerance. */
  lemma WronglyAcceptedIff(p: Decimal, r: Decimal, a: Decimal, t: Decimal, lo: int)
    requires Resolves(lo, p, r, a, t)
    ensures var prec, gap, bound := Precision(p, r, a, t), Gap(p, r, lo), Bound(r, a, t, lo);
            && (Correct(p, r, a, t) <==> gap <= bound || Round(gap, prec) == Round(bound, prec))
            && (WronglyAccepted(p, r, a, t, lo) <==> bound < gap && Round(gap, prec) == Round(bound, prec))
  {
    var prec, gap, bound := Precision(p, r, a, t), Gap(p, r, lo), Bound(r, a, t, lo);
    CorrectCompares(p, r, a, t, lo);
    if gap <= bound {
      RoundMonotone(gap, bound, prec);
    } else {
      RoundMonotone(bound, gap, prec);
    }
  }

  // ----- The two directions -----

  /** Rounding never rejects: an answer exactly within tolerance always scores correct. */
  lemma ExactImpliesCorrect(p: Decimal, r: Decimal, a: Decimal, t: Decimal, lo: int)
    requires Resolves(lo, p, r, a, t)
    requires ExactlyWithin(p, r, a, t, lo)
    ensures Correct(p, r, a, t)
  {
    WronglyAcceptedIff(p, r, a, t, lo);
  }

  /** gap <= bound * (1 + 1/k) / (1 - 1/k), without division. */
  predicate NearlyWithin(gap: nat, bound: int, k: nat) { gap * (k - 1) <= bound * (k + 1) }

  /** A correct score is within tolerance up to the factor (1 + u) / (1 - u), where u = 5 * 10^(-prec) = 1/k. */
  lemma CorrectImpliesNearlyExact(p: Decimal, r: Decimal, a: Decimal, t: Decimal, lo: int)
    requires Resolves(lo, p, r, a, t)
    requires Correct(p, r, a, t)
    ensures var k := 2 * Pow10(Precision(p, r, a, t) - 1);
            NearlyWithin(Gap(p, r, lo), Max(At(a.coefficient, a.exponent, lo), RelativeBound(r, t, lo)), k)
  {
    var prec := Precision(p, r, a, t);
    var k := 2 * Pow10(prec - 1);
    CorrectMeans(p, r, a, t, lo);
    var gap, absolute, bound := Gap(p, r, lo), At(a.coefficient, a.exponent, lo), RelativeBound(r, t, lo);
    NearRounded(gap, prec, k);
    NearRounded(bound, prec, k);
    NearBound(gap, Round(gap, prec), absolute, bound, Round(bound, prec), k);
  }

  lemma NearRounded(m: nat, prec: nat, k: nat)
    requires prec > 0 && k == 2 * Pow10(prec - 1)
    ensures k > 0 && m * (k - 1) <= Round(m, prec) * k && Round(m, prec) * k <= m * (k + 1)
  {
    RoundNear(m, prec);
  }

  lemma NearBound(gap: nat, rounded: nat, absolute: nat, bound: nat, allowance: nat, k: nat)
    requires k > 0 && gap * (k - 1) <= rounded * k && allowance * k <= bound * (k + 1)
    requires rounded <= Max(absolute, allowance)
    ensures NearlyWithin(gap, Max(absolute, bound), k)
  {
    var most := Max(absolute, bound);
    Spread(absolute, k);
    Scale(rounded, Max(absolute, allowance), k);
    Scale(absolute, most, k + 1);
    Scale(bound, most, k + 1);
  }

  /** With both tolerances zero the score is equality. */
  lemma ZeroToleranceIsEquality(p: Decimal, r: Decimal, a: Decimal, t: Decimal, lo: int)
    requires Resolves(lo, p, r, a, t)
    requires a.coefficient == 0 && t.coefficient == 0
    ensures Correct(p, r, a, t) <==> Units(p, lo) == Units(r, lo)
  {
    var prec := Precision(p, r, a, t);
    CorrectMeans(p, r, a, t, lo);
    NothingTimes(r.coefficient);
    NothingTimes(Pow10(a.exponent - lo));
    NothingTimes(Pow10(t.exponent + r.exponent - lo));
    RoundPositive(Gap(p, r, lo), prec);
    RoundPositive(0, prec);
  }

  lemma NothingTimes(x: nat)
    ensures Times(0, x) == 0
  {
  }

  /** The exact sizes that the comparison rounds: |p - r| at its own unit, and t * |r|. */
  predicate DigitsFit(p: Decimal, r: Decimal, t: Decimal, prec: nat) {
    Gap(p, r, Min(p.exponent, r.exponent)) < Pow10(prec) && Times(t.coefficient, r.coefficient) < Pow10(prec)
  }

  lemma FitsIn(c: nat, e: int, prec: nat, lo: int)
    requires lo <= e && prec > 0 && c < Pow10(prec)
    ensures Round(At(c, e, lo), prec) == At(c, e, lo)
  {
    RoundExact(c, prec);
    RoundIn(c, e, prec, lo);
  }

  /**
   * The score is exact, in both directions, whenever the difference and the relative
   * bound, each written with its own digits, have no more of them than the precision.
   */
  lemma ExactWhenDigitsFit(p: Decimal, r: Decimal, a: Decimal, t: Decimal, lo: int)
    requires Resolves(lo, p, r, a, t) && DigitsFit(p, r, t, Precision(p, r, a, t))
    ensures Correct(p, r, a, t) <==> ExactlyWithin(p, r, a, t, lo)
  {
    var prec := Precision(p, r, a, t);
    var mid := Min(p.exponent, r.exponent);
    CorrectMeans(p, r, a, t, lo);
    GapIn(p, r, lo);
    FitsIn(Gap(p, r, mid), mid, prec, lo);
    FitsIn(Times(t.coefficient, r.coefficient), t.exponent + r.exponent, prec, lo);
  }

  lemma OneTooFar(p: Decimal, r: Decimal, a: Decimal, t: Decimal, n: nat, prec: nat)
    requires prec == Precision(p, r, a, t) <= n
    requires Resolves(0, p, r, a, t)
    requires Gap(p, r, 0) == Pow10(n) + 1 && At(a.coefficient, a.exponent, 0) == Pow10(n) && RelativeBound(r, t, 0) == 0
    ensures WronglyAccepted(p, r, a, t, 0)
  {
    AlmostPower(n, prec);
    RoundPositive(0, prec);
    CorrectMeans(p, r, a, t, 0);
  }

  lemma SmallPrecision(p: Decimal, r: Decimal, a: Decimal, t: Decimal)
    requires p.coefficient <= 1 && r.coefficient <= 1 && a.coefficient <= 1 && t.coefficient <= 1
    ensures Precision(p, r, a, t) == 60
  {
  }

  /**
   * Beyond the working precision a correct score can exceed the tolerance: for every
   * n >= 60, the power 1e<n> against -1 with absolute tolerance 1e<n> is one too far
   * and scores correct.
   */
  lemma RoundingCanAccept(n: nat)
    requires n >= 60
    ensures WronglyAccepted(Decimal(false, 1, n), Decimal(true, 1, 0), Decimal(false, 1, n), Decimal(false, 0, 0), 0)
  {
    ExampleHolds(n, Decimal(false, 1, n), Decimal(true, 1, 0), Decimal(false, 0, 0));
  }

  lemma ExampleHolds(n: nat, p: Decimal, r: Decimal, t: Decimal)
    requires n >= 60 && p == Decimal(false, 1, n) && r == Decimal(true, 1, 0) && t == Decimal(false, 0, 0)
    ensures WronglyAccepted(p, r, p, t, 0)
  {
    var prec := ExamplePrecision(n, p, r, t);
    ExampleUnits(n, p, r, t);
    OneTooFar(p, r, p, t, n, prec);
  }

  lemma ExamplePrecision(n: nat, p: Decimal, r: Decimal, t: Decimal) returns (prec: nat)
    requires n >= 60 && p == Decimal(false, 1, n) && r == Decimal(true, 1, 0) && t == Decimal(false, 0, 0)
    ensures prec == Precision(p, r, p, t) <= n && Resolves(0, p, r, p, t)
  {
    SmallPrecision(p, r, p, t);
    prec := Precision(p, r, p, t);
  }

  lemma ExampleUnits(n: nat, p: Decimal, r: Decimal, t: Decimal)
    requires p == Decimal(false, 1, n) && r == Decimal(true, 1, 0) && t == Decimal(false, 0, 0)
    ensures Gap(p, r, 0) == Pow10(n) + 1 && At(1, n, 0) == Pow10(n) && RelativeBound(r, t, 0) == 0
  {
    NothingTimes(1);
    NothingTimes(Pow10(0));
  }

  // ----- A difference that fits, against a tolerance that does not -----

  /** The answer, the reference and the relative tolerance, given x = 10^(n-1). */
  function LongAnswer(x: nat): Decimal { Decimal(false, 20 * x + 19, -1) }

  function LongReference(x: nat): Decimal { Decimal(false, x + 1, 0) }

  function LongTolerance(n: nat, x: nat): Decimal
    requires x > 0
  {
    Decimal(false, 10 * x - 1, 0 - n)
  }

  const NO_TOLERANCE := Decimal(false, 0, 0)

  lemma CountIs(m: nat, k: nat)
    requires k > 0 && Pow10(k - 1) <= m < Pow10(k)
    ensures DigitCount(m) == k
  {
    ExcessUnique(m, 1, k - 1);
  }

  lemma LongPrecision(n: nat, x: nat)
    requires n >= 50 && x == Pow10(n - 1)
    ensures Precision(LongAnswer(x), LongReference(x), NO_TOLERANCE, LongTolerance(n, x)) == n + 11
  {
    LongCounts(n, x);
    CountZero();
    MostDigits(n, DigitCount(20 * x + 19), DigitCount(x + 1), DigitCount(0), DigitCount(10 * x - 1));
  }

  lemma LongCounts(n: nat, x: nat)
    requires n >= 50 && x == Pow10(n - 1)
    ensures DigitCount(20 * x + 19) == n + 1 && DigitCount(x + 1) == n && DigitCount(10 * x - 1) == n
  {
    assert Pow10(n) == 10 * x && Pow10(n + 1) == 10 * Pow10(n);
    LongPower(n);
    CountIs(20 * x + 19, n + 1);
    CountIs(x + 1, n);
    CountIs(10 * x - 1, n);
  }

  lemma CountZero()
    ensures DigitCount(0) == 1
  {
  }

  lemma MostDigits(n: nat, p: nat, r: nat, a: nat, t: nat)
    requires n >= 50 && p == n + 1 && r == n && a == 1 && t == n
    ensures Max(50, Max(p, Max(r, Max(a, t)))) + 10 == n + 11
  {
  }

  lemma LongPower(n: nat)
    requires n >= 3
    ensures Pow10(n - 1) >= 100
  {
    Pow10Monotone(2, n - 1);
  }

  /** Both sides in units of 10^-n: they differ by one. */
  lemma LongUnits(n: nat, x: nat)
    requires n > 0 && x == Pow10(n - 1)
    ensures Gap(LongAnswer(x), LongReference(x), 0 - n) == (10 * x + 9) * x
    ensures Bound(LongReference(x), NO_TOLERANCE, LongTolerance(n, x), 0 - n) == (10 * x + 9) * x - 1
  {
    assert Pow10(n) == 10 * x;
    assert Pow10(0) == 1;
    NothingTimes(Pow10(n));
    LongProducts(x);
  }

  lemma LongProducts(x: nat)
    requires x > 0
    ensures (20 * x + 19) * x - (x + 1) * (10 * x) == (10 * x + 9) * x
    ensures (10 * x - 1) * (x + 1) == (10 * x + 9) * x - 1
  {
  }

  /** The tolerance has 2n digits and rounds up to the difference. */
  lemma LongRounds(n: nat, x: nat)
    requires n >= 50 && x == Pow10(n - 1)
    ensures Round((10 * x + 9) * x - 1, n + 11) == Round((10 * x + 9) * x, n + 11)
  {
    var m, drop := (10 * x + 9) * x - 1, n - 11;
    LongSize(n, x);
    ExcessUnique(m, n + 11, drop);
    Pow10Add(10, drop);
    Associate(10 * x + 9, Pow10(10), Pow10(drop));
    BigUnit(drop);
    RoundJustBelow(m, n + 11, Pow10(drop), (10 * x + 9) * Pow10(10));
  }

  lemma LongSize(n: nat, x: nat)
    requires n > 0 && x == Pow10(n - 1)
    ensures Pow10(2 * n - 1) <= (10 * x + 9) * x - 1 < Pow10(2 * n)
  {
    Pow10Add(n - 1, n - 1);
    assert Pow10(2 * n - 1) == 10 * (x * x) && Pow10(2 * n) == 100 * (x * x);
    assert (10 * x + 9) * x == 10 * (x * x) + 9 * x;
    Grow(x, x);
  }

  /** Wrongly accepted although the difference has no more digits than the precision. */
  predicate AcceptedPastFit(p: Decimal, r: Decimal, a: Decimal, t: Decimal, lo: int) {
    && WronglyAccepted(p, r, a, t, lo)
    && Gap(p, r, Min(p.exponent, r.exponent)) < Pow10(Precision(p, r, a, t))
  }

  /**
   * The relative tolerance alone can round past a difference that has no more digits
   * than the precision: for every n >= 50 an answer of n + 1 digits is outside the
   * tolerance by 10^-n and scores correct.
   */
  lemma RoundedToleranceCanAccept(n: nat, x: nat)
    requires n >= 50 && x == Pow10(n - 1)
    ensures AcceptedPastFit(LongAnswer(x), LongReference(x), NO_TOLERANCE, LongTolerance(n, x), 0 - n)
  {
    LongIsTight(n, x);
    FitsAndAccepted(LongAnswer(x), LongReference(x), NO_TOLERANCE, LongTolerance(n, x), 0 - n, n + 11, (10 * x + 9) * x);
  }

  lemma LongIsTight(n: nat, x: nat)
    requires n >= 50 && x == Pow10(n - 1)
    ensures Tight(LongAnswer(x), LongReference(x), NO_TOLERANCE, LongTolerance(n, x), 0 - n, n + 11, (10 * x + 9) * x)
  {
    LongPrecision(n, x);
    LongUnits(n, x);
    LongRounds(n, x);
    LongGap(n, x);
  }

  /** The difference fits the precision and passes the tolerance by one unit, which rounding hides. */
  predicate Tight(p: Decimal, r: Decimal, a: Decimal, t: Decimal, lo: int, prec: nat, gap: nat) {
    && Resolves(lo, p, r, a, t) && prec == Precision(p, r, a, t)
    && gap > 0 && Gap(p, r, lo) == gap && Bound(r, a, t, lo) == gap - 1 && Round(gap - 1, prec) == Round(gap, prec)
    && Gap(p, r, Min(p.exponent, r.exponent)) < Pow10(prec)
  }

  lemma FitsAndAccepted(p: Decimal, r: Decimal, a: Decimal, t: Decimal, lo: int, prec: nat, gap: nat)
    requires Tight(p, r, a, t, lo, prec, gap)
    ensures AcceptedPastFit(p, r, a, t, lo)
  {
    WronglyAcceptedIff(p, r, a, t, lo);
  }

  lemma LongGap(n: nat, x: nat)
    requires n >= 50 && x == Pow10(n - 1)
    ensures Gap(LongAnswer(x), LongReference(x), -1) < Pow10(n + 11)
  {
    assert Pow10(1) == 10 && Pow10(0) == 1;
    Pow10Monotone(n + 1, n + 11);
    assert Pow10(n + 1) == 100 * x;
  }
}
