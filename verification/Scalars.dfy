/** The canonical text of binary floating-point numbers and of instants in time. */
module Scalars {
  import opened Prelude
  import opened Numerals

  /** Equal-width numerals of small enough numbers identify them. */
  lemma FixedInjective(n: nat, m: nat, base: nat, width: nat)
    requires 2 <= base <= 16 && n < Power(base, width) && m < Power(base, width)
    requires Fixed(n, base, width) == Fixed(m, base, width)
    ensures n == m
  {
    FixedRoundTrip(n, base, width);
    FixedRoundTrip(m, base, width);
  }

  // ----- Floating point -----

  /** An IEEE 754 double: sign, biased exponent, fraction. */
  datatype Float = Float(negative: bool, biased: nat, fraction: nat) {
    predicate Valid() { biased < 2048 && fraction < FRACTIONS }
    predicate Finite() { biased < 2047 }
    predicate Zero() { biased == 0 && fraction == 0 }
  }

  const FRACTIONS: nat := 0x10_0000_0000_0000

  lemma ThirteenHexDigits()
    ensures Power(16, 13) == FRACTIONS
  {
    assert Power(16, 4) == 0x1_0000 by {
      assert Power(16, 2) == 0x100;
    }
    assert Power(16, 7) == Power(16, 4) * 16 * 16 * 16;
    assert Power(16, 10) == Power(16, 7) * 16 * 16 * 16;
  }

  function ExponentText(e: int): string { if e < 0 then IntText(e) else ['+'] + IntText(e) }

  lemma ExponentInjective(a: int, b: int)
    requires ExponentText(a) == ExponentText(b)
    ensures a == b
  {
    IntRoundTrip(a);
    IntRoundTrip(b);
    if a >= 0 {
      assert ExponentText(b)[0] == '+';
      assert ExponentText(a)[1..] == IntText(a) && ExponentText(b)[1..] == IntText(b);
    } else {
      assert ExponentText(a)[0] == '-';
    }
  }

  function Exponent(biased: nat): int { if biased == 0 then -1022 else biased - 1023 }

  /** `hex()` of a non-zero magnitude: leading digit, thirteen hexadecimal fraction digits, binary exponent. */
  function Magnitude(biased: nat, fraction: nat): string {
    ['0', 'x'] + ([if biased == 0 then '0' else '1'] + (['.'] + (Fixed(fraction, 16, 13) + (['p'] + ExponentText(Exponent(biased))))))
  }

  /** Zero of either sign is written as positive zero. */
  function FloatText(f: Float): string {
    if f.Zero() then ['0', 'x', '0', '.', '0', 'p', '+', '0']
    else (if f.negative then ['-'] else []) + Magnitude(f.biased, f.fraction)
  }

  predicate SameFloat(a: Float, b: Float) { a == b || (a.Zero() && b.Zero()) }

  lemma MagnitudeInjective(b1: nat, f1: nat, b2: nat, f2: nat)
    requires f1 < FRACTIONS && f2 < FRACTIONS && Magnitude(b1, f1) == Magnitude(b2, f2)
    ensures b1 == b2 && f1 == f2
  {
    var x1 := ['p'] + ExponentText(Exponent(b1));
    var x2 := ['p'] + ExponentText(Exponent(b2));
    var d1 := [if b1 == 0 then '0' else '1'];
    var d2 := [if b2 == 0 then '0' else '1'];
    Heads(['0', 'x'], d1 + (['.'] + (Fixed(f1, 16, 13) + x1)), ['0', 'x'], d2 + (['.'] + (Fixed(f2, 16, 13) + x2)));
    Heads(d1, ['.'] + (Fixed(f1, 16, 13) + x1), d2, ['.'] + (Fixed(f2, 16, 13) + x2));
    Heads(['.'], Fixed(f1, 16, 13) + x1, ['.'], Fixed(f2, 16, 13) + x2);
    Heads(Fixed(f1, 16, 13), x1, Fixed(f2, 16, 13), x2);
    Heads(['p'], ExponentText(Exponent(b1)), ['p'], ExponentText(Exponent(b2)));
    ThirteenHexDigits();
    FixedInjective(f1, f2, 16, 13);
    ExponentInjective(Exponent(b1), Exponent(b2));
    assert d1[0] == d2[0];
  }

  lemma MagnitudeShape(biased: nat, fraction: nat)
    ensures |Magnitude(biased, fraction)| > 10 && Magnitude(biased, fraction)[0] == '0'
  {
  }

  /** Two doubles have the same text exactly when they are the same up to the sign of zero. */
  lemma FloatTextIff(a: Float, b: Float)
    requires a.Valid() && b.Valid()
    ensures FloatText(a) == FloatText(b) <==> SameFloat(a, b)
  {
    MagnitudeShape(a.biased, a.fraction);
    MagnitudeShape(b.biased, b.fraction);
    if FloatText(a) == FloatText(b) && !a.Zero() && !b.Zero() {
      assert a.negative == b.negative by {
        assert FloatText(a)[0] == FloatText(b)[0];
      }
      if a.negative {
        Heads(['-'], Magnitude(a.biased, a.fraction), ['-'], Magnitude(b.biased, b.fraction));
      } else {
        assert [] + Magnitude(a.biased, a.fraction) == Magnitude(a.biased, a.fraction);
        assert [] + Magnitude(b.biased, b.fraction) == Magnitude(b.biased, b.fraction);
      }
      MagnitudeInjective(a.biased, a.fraction, b.biased, b.fraction);
    }
  }

  // ----- The proleptic Gregorian calendar -----

  predicate Leap(year: nat) { year % 4 == 0 && (year % 100 != 0 || year % 400 == 0) }

  function YearLength(year: nat): nat { if Leap(year) then 366 else 365 }

  /** Days before a year, counting from the start of year 1. */
  function DaysBefore(year: nat): nat
    requires year >= 1
  {
    var p := year - 1;
    365 * p + p / 4 - p / 100 + p / 400
  }

  lemma NextYear(year: nat)
    requires year >= 1
    ensures DaysBefore(year + 1) == DaysBefore(year) + YearLength(year)
  {
    var p := year - 1;
    Carry(p, 4);
    Carry(p, 100);
    Carry(p, 400);
    Centuries(year);
  }

  lemma Centuries(year: nat)
    ensures year % 400 == 0 ==> year % 100 == 0
    ensures year % 100 == 0 ==> year % 4 == 0
  {
    assert year % 400 == 0 ==> year == 100 * (4 * (year / 400));
    assert year % 100 == 0 ==> year == 4 * (25 * (year / 100));
  }

  lemma Carry(p: nat, k: nat)
    requires k == 4 || k == 100 || k == 400
    ensures (p + 1) / k == p / k + if (p + 1) % k == 0 then 1 else 0
  {
  }

  /** The year a day falls in, and the day within it, searching from `year` on. */
  function YearOf(day: nat, year: nat): (nat, nat) {
    if day < YearLength(year) then (year, day) else YearOf(day - YearLength(year), year + 1)
  }

  lemma {:induction false} YearOfDay(day: nat, year: nat)
    requires year >= 1
    ensures var (y, d) := YearOf(day, year);
            y >= year && d < YearLength(y) && DaysBefore(y) + d == DaysBefore(year) + day
    decreases day
  {
    if day >= YearLength(year) {
      NextYear(year);
      YearOfDay(day - YearLength(year), year + 1);
    }
  }

  function MonthLength(month: nat, leap: bool): nat {
    if month == 2 then (if leap then 29 else 28)
    else if month == 4 || month == 6 || month == 9 || month == 11 then 30
    else 31
  }

  /** The month a day of the year falls in, and the day within it, searching from `month` on. */
  function MonthOf(day: nat, month: nat, leap: bool): (nat, nat)
    decreases 13 - month
  {
    if month >= 12 || day < MonthLength(month, leap) then (month, day)
    else MonthOf(day - MonthLength(month, leap), month + 1, leap)
  }

  /** Days from the start of `month` to the end of the year, at most. */
  function DaysLeft(month: nat, leap: bool): nat
    decreases 13 - month
  {
    if month >= 12 then 31 else MonthLength(month, leap) + DaysLeft(month + 1, leap)
  }

  lemma {:induction false} MonthOfDay(day: nat, month: nat, leap: bool)
    requires 1 <= month <= 12 && day < DaysLeft(month, leap)
    ensures month <= MonthOf(day, month, leap).0 <= 12 && MonthOf(day, month, leap).1 < 31
    decreases 13 - month
  {
    if month < 12 && day >= MonthLength(month, leap) {
      MonthOfDay(day - MonthLength(month, leap), month + 1, leap);
    }
  }

  /** Days of the year before a month, searching from `start` on. */
  function DaysTo(start: nat, month: nat, leap: bool): nat
    decreases 13 - start
  {
    if start >= 12 || start >= month then 0 else MonthLength(start, leap) + DaysTo(start + 1, month, leap)
  }

  /** Month and day of the month determine the day of the year. */
  lemma {:induction false} MonthOfRoundTrip(day: nat, month: nat, leap: bool)
    requires 1 <= month <= 12 && day < DaysLeft(month, leap)
    ensures var (m, d) := MonthOf(day, month, leap); DaysTo(month, m, leap) + d == day
    decreases 13 - month
  {
    if month < 12 && day >= MonthLength(month, leap) {
      MonthOfDay(day - MonthLength(month, leap), month + 1, leap);
      MonthOfRoundTrip(day - MonthLength(month, leap), month + 1, leap);
    }
  }

  /** The day of the year each month starts after. */
  function Cumulative(month: nat, leap: bool): nat
    requires 1 <= month <= 12
  {
    [0, 31, 59, 90, 120, 151, 181, 212, 243, 273, 304, 334][month - 1] + if leap && month > 2 then 1 else 0
  }

  lemma MonthStarts(month: nat, leap: bool)
    requires 1 <= month <= 12
    ensures DaysTo(1, month, leap) == Cumulative(month, leap)
  {
    MonthSum(1, month, leap);
  }

  lemma {:induction false} MonthSum(start: nat, month: nat, leap: bool)
    requires 1 <= start <= month <= 12
    ensures DaysTo(start, month, leap) == Cumulative(month, leap) - Cumulative(start, leap)
    decreases month - start
  {
    if start < month {
      MonthSum(start + 1, month, leap);
    }
  }

  lemma WholeYear(leap: bool)
    ensures DaysLeft(1, leap) == if leap then 366 else 365
  {
    assert DaysLeft(10, leap) == 92;
    assert DaysLeft(7, leap) == 184;
    assert DaysLeft(4, leap) == 275;
  }

  const DAY: nat := 86_400_000_000
  const DAYS: nat := 3_652_059

  lemma LateYears(year: nat)
    requires year >= 10000
    ensures DaysBefore(year) >= DAYS
  {
  }

  lemma LastYear(day: nat)
    requires day < DAYS
    ensures 1 <= YearOf(day, 1).0 <= 9999
  {
    YearOfDay(day, 1);
    if YearOf(day, 1).0 >= 10000 {
      LateYears(YearOf(day, 1).0);
    }
  }

  /** `YYYY-MM-DD`. */
  function CivilText(y: nat, m: nat, d: nat): (r: string)
    ensures |r| == 10
  {
    Fixed(y, 10, 4) + (['-'] + (Fixed(m, 10, 2) + (['-'] + Fixed(d, 10, 2))))
  }

  function DateText(day: nat): (r: string)
    ensures |r| == 10
  {
    var (y, n) := YearOf(day, 1);
    var (m, d) := MonthOf(n, 1, Leap(y));
    CivilText(y, m, d + 1)
  }

  lemma DecimalWidths()
    ensures Power(10, 2) == 100 && Power(10, 4) == 10000 && Power(10, 6) == 1000000
  {
    assert Power(10, 3) == 1000 && Power(10, 5) == 100000;
  }

  lemma DateInjective(a: nat, b: nat)
    requires a < DAYS && b < DAYS && DateText(a) == DateText(b)
    ensures a == b
  {
    var (y1, n1) := YearOf(a, 1);
    var (y2, n2) := YearOf(b, 1);
    var (m1, d1) := MonthOf(n1, 1, Leap(y1));
    var (m2, d2) := MonthOf(n2, 1, Leap(y2));
    DateFits(a);
    DateFits(b);
    CivilInjective(y1, m1, d1 + 1, y2, m2, d2 + 1);
    DayFromParts(a);
    DayFromParts(b);
  }

  /** Year, month and day of the month add up to the day. */
  lemma DayFromParts(day: nat)
    requires day < DAYS
    ensures var (y, n) := YearOf(day, 1);
            var (m, d) := MonthOf(n, 1, Leap(y));
            y >= 1 && day == DaysBefore(y) + DaysTo(1, m, Leap(y)) + d
  {
    var (y, n) := YearOf(day, 1);
    DateFits(day);
    YearOfDay(day, 1);
    MonthOfRoundTrip(n, 1, Leap(y));
  }

  predicate Civil(y: nat, m: nat, d: nat) { y < 10000 && m < 100 && d < 100 }

  lemma CivilInjective(y1: nat, m1: nat, d1: nat, y2: nat, m2: nat, d2: nat)
    requires Civil(y1, m1, d1) && Civil(y2, m2, d2) && CivilText(y1, m1, d1) == CivilText(y2, m2, d2)
    ensures y1 == y2 && m1 == m2 && d1 == d2
  {
    DateParts(y1, m1, d1, y2, m2, d2);
    DecimalWidths();
    FixedInjective(y1, y2, 10, 4);
    FixedInjective(m1, m2, 10, 2);
    FixedInjective(d1, d2, 10, 2);
  }

  lemma DateFits(day: nat)
    requires day < DAYS
    ensures var (y, n) := YearOf(day, 1);
            var (m, d) := MonthOf(n, 1, Leap(y));
            && Civil(y, m, d + 1) && n < DaysLeft(1, Leap(y))
  {
    var (y, n) := YearOf(day, 1);
    YearOfDay(day, 1);
    LastYear(day);
    WholeYear(Leap(y));
    MonthOfDay(n, 1, Leap(y));
  }

  lemma DateParts(y1: nat, m1: nat, d1: nat, y2: nat, m2: nat, d2: nat)
    requires CivilText(y1, m1, d1) == CivilText(y2, m2, d2)
    ensures Fixed(y1, 10, 4) == Fixed(y2, 10, 4) && Fixed(m1, 10, 2) == Fixed(m2, 10, 2) && Fixed(d1, 10, 2) == Fixed(d2, 10, 2)
  {
    var p1, p2 := ['-'] + Fixed(d1, 10, 2), ['-'] + Fixed(d2, 10, 2);
    Heads(Fixed(y1, 10, 4), ['-'] + (Fixed(m1, 10, 2) + p1), Fixed(y2, 10, 4), ['-'] + (Fixed(m2, 10, 2) + p2));
    Heads(['-'], Fixed(m1, 10, 2) + p1, ['-'], Fixed(m2, 10, 2) + p2);
    Heads(Fixed(m1, 10, 2), p1, Fixed(m2, 10, 2), p2);
    Heads(['-'], Fixed(d1, 10, 2), ['-'], Fixed(d2, 10, 2));
  }

  /** `HH:MM:SS.ffffff`, from whole seconds and microseconds. */
  function TimeText(t: nat): (r: string)
    ensures |r| == 15
  {
    var s := t / 1_000_000;
    Fixed(s / 3600, 10, 2) + ([':'] + (Fixed(s / 60 % 60, 10, 2) + ([':'] + (Fixed(s % 60, 10, 2) + (['.'] + Fixed(t % 1_000_000, 10, 6))))))
  }

  lemma TimeInjective(a: nat, b: nat)
    requires a < DAY && b < DAY && TimeText(a) == TimeText(b)
    ensures a == b
  {
    var s, t := a / 1_000_000, b / 1_000_000;
    var u1 := ['.'] + Fixed(a % 1_000_000, 10, 6);
    var u2 := ['.'] + Fixed(b % 1_000_000, 10, 6);
    var v1 := Fixed(s % 60, 10, 2) + u1;
    var v2 := Fixed(t % 60, 10, 2) + u2;
    var w1 := Fixed(s / 60 % 60, 10, 2) + ([':'] + v1);
    var w2 := Fixed(t / 60 % 60, 10, 2) + ([':'] + v2);
    Heads(Fixed(s / 3600, 10, 2), [':'] + w1, Fixed(t / 3600, 10, 2), [':'] + w2);
    Heads([':'], w1, [':'], w2);
    Heads(Fixed(s / 60 % 60, 10, 2), [':'] + v1, Fixed(t / 60 % 60, 10, 2), [':'] + v2);
    Heads([':'], v1, [':'], v2);
    Heads(Fixed(s % 60, 10, 2), u1, Fixed(t % 60, 10, 2), u2);
    Heads(['.'], Fixed(a % 1_000_000, 10, 6), ['.'], Fixed(b % 1_000_000, 10, 6));
    DecimalWidths();
    FixedInjective(s / 3600, t / 3600, 10, 2);
    FixedInjective(s / 60 % 60, t / 60 % 60, 10, 2);
    FixedInjective(s % 60, t % 60, 10, 2);
    FixedInjective(a % 1_000_000, b % 1_000_000, 10, 6);
    Clock(s);
    Clock(t);
  }

  lemma Clock(s: nat)
    ensures s == 3600 * (s / 3600) + 60 * (s / 60 % 60) + s % 60
  {
    assert s / 3600 == s / 60 / 60;
  }

  /** A datetime: wall-clock microseconds from the start of year 1, and its offset; None is a naive value. */
  datatype Moment = Moment(wall: nat, offset: Option<int>) {
    predicate Valid() { wall < DAYS * DAY }

    /** Naive values are read as UTC. */
    function Instant(): int { wall - (if offset.Some? then offset.value else 0) }

    /** Conversion to UTC overflows outside years 1 to 9999. */
    predicate InRange() { 0 <= Instant() < DAYS * DAY }
  }

  /** ISO text with microseconds, in UTC. */
  function InstantText(n: nat): string { DateText(n / DAY) + (['T'] + (TimeText(n % DAY) + ['Z'])) }

  /** The text identifies the instant. */
  lemma InstantInjective(a: nat, b: nat)
    requires a < DAYS * DAY && b < DAYS * DAY && InstantText(a) == InstantText(b)
    ensures a == b
  {
    Heads(DateText(a / DAY), ['T'] + (TimeText(a % DAY) + ['Z']), DateText(b / DAY), ['T'] + (TimeText(b % DAY) + ['Z']));
    Heads(['T'], TimeText(a % DAY) + ['Z'], ['T'], TimeText(b % DAY) + ['Z']);
    Heads(TimeText(a % DAY), ['Z'], TimeText(b % DAY), ['Z']);
    DateInjective(a / DAY, b / DAY);
    TimeInjective(a % DAY, b % DAY);
  }
}
