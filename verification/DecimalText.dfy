/** The canonical text of a decimal: normalised to the context's 28 digits and written without exponent. */
module DecimalText {
  import opened Prelude
  import opened Numerals
  import opened Rounding

  const PRECISION: nat := 28

  /** Trailing zeros moved into the exponent. */
  function Strip(c: nat, e: int): (r: (nat, int))
    requires c > 0
    ensures r.0 > 0 && r.0 % 10 != 0 && r.1 >= e
  {
    if c % 10 == 0 then Strip(c / 10, e + 1) else (c, e)
  }

  lemma {:induction false} StripKeepsValue(c: nat, e: int)
    requires c > 0
    ensures c == Strip(c, e).0 * Pow10(Strip(c, e).1 - e)
  {
    if c % 10 == 0 {
      StripKeepsValue(c / 10, e + 1);
      var r := Strip(c, e);
      Regroup(r.0, Pow10(r.1 - e - 1));
    } else {
      assert Pow10(0) == 1;
    }
  }

  function Padded(c: nat, width: nat): string {
    var d := Digits(c);
    if |d| >= width then d else Zeros(width - |d|) + d
  }

  function WithPoint(whole: string, fraction: string): string { whole + (['.'] + fraction) }

  /** A coefficient with k digits after the point and at least one before it. */
  function Pointed(c: nat, k: nat): string {
    var d := Padded(c, k + 1);
    PaddedWide(c, k + 1);
    WithPoint(d[..|d| - k], d[|d| - k..])
  }

  /** `format(d, "f")` of a positive coefficient: zeros appended, or a point inserted. */
  function Plain(c: nat, e: int): string {
    if e >= 0 then Digits(c * Pow10(e)) else Pointed(c, -e)
  }

  lemma PaddedWide(c: nat, width: nat)
    ensures |Padded(c, width)| >= width && Read(Padded(c, width), 10) == c && AllDigits(Padded(c, width))
  {
    DigitsRoundTrip(c);
    if |Digits(c)| < width {
      ZerosBefore(width - |Digits(c)|, Digits(c));
    }
  }

  lemma ZerosBefore(k: nat, d: string)
    requires AllDigits(d)
    ensures |Zeros(k) + d| == k + |d| && Read(Zeros(k) + d, 10) == Read(d, 10) && AllDigits(Zeros(k) + d)
  {
    ReadZeros(k, d);
    OnlyZeros(k);
  }

  function Text(d: Decimal): string {
    if d.coefficient == 0 then "0"
    else
      RoundPositive(d.coefficient, PRECISION);
      var (c, e) := Strip(Round(d.coefficient, PRECISION), d.exponent);
      (if d.negative then "-" else "") + Plain(c, e)
  }

  // ----- Reading the text back -----

  function PointAt(s: string): (i: nat)
    ensures i <= |s|
  {
    if s == [] || s[0] == '.' then 0 else 1 + PointAt(s[1..])
  }

  lemma {:induction false} PointAfter(whole: string, rest: string)
    requires AllDigits(whole)
    ensures PointAt(whole + rest) == |whole| + PointAt(rest)
  {
    if whole == [] {
      assert whole + rest == rest;
    } else {
      assert forall c :: c in whole[1..] ==> c in whole;
      assert (whole + rest)[0] == whole[0] && whole[0] in whole && (whole + rest)[1..] == whole[1..] + rest;
      PointAfter(whole[1..], rest);
    }
  }

  /** The number with its point removed, and how many digits followed the point. */
  function ReadPlain(s: string): (nat, nat) {
    var i := PointAt(s);
    if i == |s| then (Read(s, 10), 0) else (Read(s[..i] + s[i+1..], 10), |s| - i - 1)
  }

  lemma WholeRead(n: nat)
    ensures ReadPlain(Digits(n)) == (n, 0)
  {
    var d := Digits(n);
    DigitsRoundTrip(n);
    PointAfter(d, []);
    assert d + [] == d;
  }

  lemma FractionRead(d: string, i: nat)
    requires i <= |d| && AllDigits(d)
    ensures ReadPlain(WithPoint(d[..i], d[i..])) == (Read(d, 10), |d| - i)
  {
    assert forall c :: c in d[..i] ==> c in d;
    PointRead(d[..i], d[i..]);
    Rejoin(d, i);
  }

  lemma Rejoin(d: string, i: nat)
    requires i <= |d|
    ensures d[..i] + d[i..] == d
  {
  }

  /** What the text of a coefficient at an exponent shows: a number, and its digits after the point. */
  function Shown(c: nat, e: int): (nat, nat) {
    if e >= 0 then (c * Pow10(e), 0) else (c, -e)
  }

  lemma PlainRead(c: nat, e: int)
    ensures ReadPlain(Plain(c, e)) == Shown(c, e)
  {
    if e >= 0 {
      WholeRead(c * Pow10(e));
    } else {
      PointedRead(c, -e);
    }
  }

  lemma PointedRead(c: nat, k: nat)
    ensures ReadPlain(Pointed(c, k)) == (c, k)
  {
    var d := Padded(c, k + 1);
    PaddedWide(c, k + 1);
    FractionRead(d, |d| - k);
  }

  lemma PointRead(whole: string, fraction: string)
    requires AllDigits(whole)
    ensures ReadPlain(WithPoint(whole, fraction)) == (Read(whole + fraction, 10), |fraction|)
  {
    PointPlace(whole, fraction);
    PointParts(whole, fraction);
  }

  lemma PointPlace(whole: string, fraction: string)
    requires AllDigits(whole)
    ensures PointAt(WithPoint(whole, fraction)) == |whole|
  {
    PointAfter(whole, ['.'] + fraction);
  }

  lemma PointParts(whole: string, fraction: string)
    ensures var s := WithPoint(whole, fraction);
            |s| == |whole| + 1 + |fraction| && s[..|whole|] == whole && s[|whole|+1..] == fraction
  {
  }

  /** Two coefficients at two exponents are the same number. */
  predicate SameNumber(c1: nat, e1: int, c2: nat, e2: int) {
    if e1 >= e2 then c1 * Pow10(e1 - e2) == c2 else c1 == c2 * Pow10(e2 - e1)
  }

  lemma NotDivisible(c: nat, k: nat)
    requires k > 0
    ensures c * Pow10(k) % 10 == 0
  {
    Regroup(c, Pow10(k - 1));
  }

  lemma StrippedUnique(c1: nat, e1: int, c2: nat, e2: int)
    requires c1 % 10 != 0 && c2 % 10 != 0 && SameNumber(c1, e1, c2, e2)
    ensures c1 == c2 && e1 == e2
  {
    if e1 > e2 {
      NotDivisible(c1, e1 - e2);
    } else if e2 > e1 {
      NotDivisible(c2, e2 - e1);
    }
  }

  lemma Cancel(a: nat, b: nat, k: nat)
    requires k > 0 && a * k == b * k
    ensures a == b
  {
    if a < b {
      Scale(a + 1, b, k);
      NextMultiple(a, k);
    } else if b < a {
      Scale(b + 1, a, k);
      NextMultiple(b, k);
    }
  }

  /** Numbers at two exponents agree exactly when they agree counted in any smaller unit. */
  lemma SameIn(c1: nat, e1: int, c2: nat, e2: int, lo: int)
    requires lo <= e1 && lo <= e2
    ensures SameNumber(c1, e1, c2, e2) <==> c1 * Pow10(e1 - lo) == c2 * Pow10(e2 - lo)
  {
    var k := if e1 >= e2 then e2 - lo else e1 - lo;
    var gap := if e1 >= e2 then e1 - e2 else e2 - e1;
    Pow10Add(gap, k);
    assert gap + k == if e1 >= e2 then e1 - lo else e2 - lo;
    if e1 >= e2 {
      Associate(c1, Pow10(gap), Pow10(k));
      if c1 * Pow10(e1 - lo) == c2 * Pow10(e2 - lo) {
        Cancel(c1 * Pow10(gap), c2, Pow10(k));
      }
    } else {
      Associate(c2, Pow10(gap), Pow10(k));
      if c1 * Pow10(e1 - lo) == c2 * Pow10(e2 - lo) {
        Cancel(c1, c2 * Pow10(gap), Pow10(k));
      }
    }
  }

  lemma StripSame(c1: nat, e1: int, c2: nat, e2: int)
    requires c1 > 0 && c2 > 0
    ensures SameNumber(c1, e1, c2, e2) <==> Strip(c1, e1) == Strip(c2, e2)
  {
    var lo := if e1 <= e2 then e1 else e2;
    var (s1, f1) := Strip(c1, e1);
    var (s2, f2) := Strip(c2, e2);
    StripIn(c1, e1, lo);
    StripIn(c2, e2, lo);
    SameIn(c1, e1, c2, e2, lo);
    SameIn(s1, f1, s2, f2, lo);
    if SameNumber(s1, f1, s2, f2) {
      StrippedUnique(s1, f1, s2, f2);
    }
  }

  lemma StripIn(c: nat, e: int, lo: int)
    requires c > 0 && lo <= e
    ensures var (s, f) := Strip(c, e); s * Pow10(f - lo) == c * Pow10(e - lo)
  {
    var (s, f) := Strip(c, e);
    StripKeepsValue(c, e);
    Pow10Add(f - e, e - lo);
    assert (f - e) + (e - lo) == f - lo;
    Associate(s, Pow10(f - e), Pow10(e - lo));
  }

  /** Equal plain texts of stripped numbers are the same number. */
  lemma PlainInjective(c1: nat, e1: int, c2: nat, e2: int)
    requires c1 % 10 != 0 && c2 % 10 != 0 && Plain(c1, e1) == Plain(c2, e2)
    ensures c1 == c2 && e1 == e2
  {
    PlainRead(c1, e1);
    PlainRead(c2, e2);
    if e1 >= 0 {
      assert e2 >= 0;
      SameIn(c1, e1, c2, e2, 0);
      StrippedUnique(c1, e1, c2, e2);
    }
  }

  lemma PlainStart(c: nat, e: int)
    requires c > 0
    ensures var t := Plain(c, e); t != [] && t[0] != '-' && t != "0"
  {
    PlainRead(c, e);
    if e >= 0 {
      DigitsRoundTrip(c * Pow10(e));
      assert Digits(c * Pow10(e))[0] in Digits(c * Pow10(e));
      assert c * Pow10(e) > 0 by { Scale(1, c, Pow10(e)); }
      ZeroText();
    } else {
      PointedStart(c, -e);
    }
  }

  lemma PointedStart(c: nat, k: nat)
    ensures var t := Pointed(c, k); |t| >= 2 && t[0] != '-'
  {
    var d := Padded(c, k + 1);
    PaddedWide(c, k + 1);
    assert d[0] in d && Pointed(c, k)[0] == d[0];
  }

  lemma ZeroText()
    ensures Read("0", 10) == 0
  {
    assert "0"[..0] == [];
  }

  /** Equality of decimals as the summary sees it: numeric, after rounding to 28 digits, with one zero. */
  predicate SameDecimal(a: Decimal, b: Decimal) {
    if a.coefficient == 0 || b.coefficient == 0 then a.coefficient == b.coefficient
    else
      a.negative == b.negative
      && SameNumber(Round(a.coefficient, PRECISION), a.exponent, Round(b.coefficient, PRECISION), b.exponent)
  }

  lemma TextBody(d: Decimal) returns (c: nat, e: int)
    requires d.coefficient > 0
    ensures Round(d.coefficient, PRECISION) > 0
    ensures (c, e) == Strip(Round(d.coefficient, PRECISION), d.exponent)
    ensures Text(d) == (if d.negative then ['-'] + Plain(c, e) else Plain(c, e))
    ensures c > 0 && c % 10 != 0 && Plain(c, e) != [] && Plain(c, e)[0] != '-'
    ensures Text(d) != "0"
  {
    RoundPositive(d.coefficient, PRECISION);
    var (c0, e0) := Strip(Round(d.coefficient, PRECISION), d.exponent);
    c, e := c0, e0;
    PlainStart(c, e);
    assert "" + Plain(c, e) == Plain(c, e);
  }

  /** Two decimals have the same canonical text exactly when they are the same number to 28 significant digits. */
  lemma TextIff(a: Decimal, b: Decimal)
    ensures Text(a) == Text(b) <==> SameDecimal(a, b)
  {
    if a.coefficient > 0 && b.coefficient > 0 {
      var c1, e1 := TextBody(a);
      var c2, e2 := TextBody(b);
      StripSame(Round(a.coefficient, PRECISION), a.exponent, Round(b.coefficient, PRECISION), b.exponent);
      if Text(a) == Text(b) {
        assert a.negative == b.negative by {
          assert Text(a)[0] == Text(b)[0];
        }
        assert Plain(c1, e1) == Plain(c2, e2) by {
          if a.negative {
            assert Text(a)[1..] == Plain(c1, e1) && Text(b)[1..] == Plain(c2, e2);
          }
        }
        PlainInjective(c1, e1, c2, e2);
      }
    } else if a.coefficient > 0 {
      var c1, e1 := TextBody(a);
    } else if b.coefficient > 0 {
      var c2, e2 := TextBody(b);
    }
  }

  /** Up to 28 digits the text identifies the number exactly. */
  lemma TextExactIff(a: Decimal, b: Decimal)
    requires 0 < a.coefficient < Pow10(PRECISION) && 0 < b.coefficient < Pow10(PRECISION)
    ensures Text(a) == Text(b) <==>
            a.negative == b.negative && SameNumber(a.coefficient, a.exponent, b.coefficient, b.exponent)
  {
    TextIff(a, b);
    RoundExact(a.coefficient, PRECISION);
    RoundExact(b.coefficient, PRECISION);
  }

  lemma PowerIsRound(k: nat)
    requires k > 0
    ensures RoundsTo(Pow10(k), k, Pow10(k))
  {
    var one := 1;
    RoundExact(one, k);
    RoundScale(one, k, k);
    assert one * Pow10(k) == Pow10(k);
  }

  lemma SameText(a: Decimal, b: Decimal, k: nat, rounded: nat)
    requires k == PRECISION
    requires a.coefficient > 0 && b.coefficient > 0 && a.negative == b.negative && a.exponent == b.exponent
    requires RoundsTo(a.coefficient, k, rounded) && RoundsTo(b.coefficient, k, rounded)
    ensures Text(a) == Text(b)
  {
    assert Pow10(0) == 1;
    TextIff(a, b);
  }

  lemma PowersCollide(k: nat, a: Decimal, b: Decimal)
    requires k > 0 && a == Decimal(false, Pow10(k), 0) && b == Decimal(false, Pow10(k) + 1, 0)
    ensures RoundsTo(a.coefficient, k, Pow10(k)) && RoundsTo(b.coefficient, k, Pow10(k))
    ensures !SameNumber(a.coefficient, 0, b.coefficient, 0)
  {
    PowerIsRound(k);
    AlmostPower(k, k);
    UnitSame(Pow10(k), Pow10(k) + 1);
  }

  lemma UnitSame(x: nat, y: nat)
    ensures SameNumber(x, 0, y, 0) <==> x == y
  {
  }

  /** With 29 digits it does not: 10^28 and 10^28 + 1 have one text. */
  lemma TwentyNineDigits(k: nat, a: Decimal, b: Decimal)
    requires k == PRECISION && a == Decimal(false, Pow10(k), 0) && b == Decimal(false, Pow10(k) + 1, 0)
    ensures Text(a) == Text(b) && !SameNumber(a.coefficient, 0, b.coefficient, 0)
  {
    PowersCollide(k, a, b);
    SameText(a, b, k, Pow10(k));
  }
}
