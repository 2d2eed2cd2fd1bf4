/** Positional numerals as text, and why each way of writing a number identifies it. */
module Numerals {
  import opened Prelude

  function Digit(d: nat): char
    requires d < 16
  {
    (if d < 10 then '0' as int + d else 'a' as int + d - 10) as char
  }

  function HexValue(c: char): Option<nat> {
    if '0' <= c <= '9' then Some(c as int - '0' as int)
    else if 'a' <= c <= 'f' then Some(c as int - 'a' as int + 10)
    else None
  }

  lemma HexDigit(d: nat)
    requires d < 16
    ensures HexValue(Digit(d)) == Some(d)
    ensures d < 10 ==> '0' <= Digit(d) <= '9'
  {
  }

  function DigitValue(c: char): nat {
    match HexValue(c)
    case Some(d) => d
    case None => 0
  }

  /** What a numeral denotes, most significant digit first. */
  function Read(s: string, base: nat): nat {
    if s == [] then 0 else Read(s[..|s|-1], base) * base + DigitValue(s[|s|-1])
  }

  lemma ReadSnoc(s: string, c: char, base: nat)
    ensures Read(s + [c], base) == Read(s, base) * base + DigitValue(c)
  {
    assert (s + [c])[..|s + [c]|-1] == s;
  }

  /** A numeral of fixed width, zero-padded. */
  function Fixed(n: nat, base: nat, width: nat): (r: string)
    requires 2 <= base <= 16
    ensures |r| == width
  {
    if width == 0 then [] else Fixed(n / base, base, width - 1) + [Digit(n % base)]
  }

  function Power(base: nat, k: nat): nat { if k == 0 then 1 else Power(base, k - 1) * base }

  lemma Multiply(a: nat, b: nat, k: nat)
    requires a <= b
    ensures a * k <= b * k
  {
  }

  lemma QuotientFits(n: nat, base: nat, limit: nat)
    requires base > 0 && n < limit * base
    ensures n / base < limit && n == n / base * base + n % base
  {
    if n / base >= limit {
      Multiply(limit, n / base, base);
    }
  }

  lemma {:induction false} FixedRoundTrip(n: nat, base: nat, width: nat)
    requires 2 <= base <= 16 && n < Power(base, width)
    ensures Read(Fixed(n, base, width), base) == n
    decreases width
  {
    if width > 0 {
      QuotientFits(n, base, Power(base, width - 1));
      FixedRoundTrip(n / base, base, width - 1);
      HexDigit(n % base);
      ReadSnoc(Fixed(n / base, base, width - 1), Digit(n % base), base);
    }
  }

  /** `str` of a natural number. */
  function Digits(n: nat): (r: string)
    ensures r != []
  {
    if n < 10 then [Digit(n)] else Digits(n / 10) + [Digit(n % 10)]
  }

  predicate AllDigits(s: string) { forall c :: c in s ==> '0' <= c <= '9' }

  lemma {:induction false} DigitsRoundTrip(n: nat)
    ensures Read(Digits(n), 10) == n && AllDigits(Digits(n))
  {
    HexDigit(n % 10);
    if n < 10 {
      assert [Digit(n)] == [] + [Digit(n)];
      ReadSnoc([], Digit(n), 10);
    } else {
      DigitsRoundTrip(n / 10);
      ReadSnoc(Digits(n / 10), Digit(n % 10), 10);
      assert n == n / 10 * 10 + n % 10;
    }
  }

  /** No zero in front of a numeral but zero's own. */
  lemma {:induction false} NoLeadingZero(n: nat)
    ensures Digits(n)[0] == '0' ==> Digits(n) == "0" && n == 0
  {
    HexDigit(n % 10);
    if n < 10 {
      assert Digits(n) == [Digit(n)];
    } else {
      NoLeadingZero(n / 10);
    }
  }

  /** `str` of an integer. */
  function IntText(i: int): string { if i < 0 then "-" + Digits(-i) else Digits(i) }

  function ReadInt(s: string): int {
    if s != [] && s[0] == '-' then 0 - Read(s[1..], 10) else Read(s, 10)
  }

  lemma IntRoundTrip(i: int)
    ensures ReadInt(IntText(i)) == i
  {
    if i < 0 {
      DigitsRoundTrip(-i);
      assert ("-" + Digits(-i))[1..] == Digits(-i);
    } else {
      DigitsRoundTrip(i);
      assert Digits(i)[0] in Digits(i);
    }
  }

  function Zeros(k: nat): string { if k == 0 then [] else Zeros(k - 1) + ['0'] }

  lemma {:induction false} OnlyZeros(k: nat)
    ensures Read(Zeros(k), 10) == 0 && |Zeros(k)| == k && AllDigits(Zeros(k))
  {
    if k > 0 {
      OnlyZeros(k - 1);
      ReadSnoc(Zeros(k - 1), '0', 10);
    }
  }

  lemma {:induction false} ReadZeros(k: nat, s: string)
    ensures Read(Zeros(k) + s, 10) == Read(s, 10)
    decreases |s|
  {
    if s == [] {
      OnlyZeros(k);
      assert Zeros(k) + s == Zeros(k);
    } else {
      var front, last := s[..|s|-1], s[|s|-1];
      ReadZeros(k, front);
      assert Zeros(k) + s == (Zeros(k) + front) + [last];
      ReadSnoc(Zeros(k) + front, last, 10);
    }
  }

  function HexByte(b: byte): (r: string)
    ensures |r| == 2
  {
    Fixed(b as nat, 16, 2)
  }

  lemma HexByteInjective(a: byte, b: byte)
    requires HexByte(a) == HexByte(b)
    ensures a == b
  {
    assert Power(16, 2) == 256;
    FixedRoundTrip(a as nat, 16, 2);
    FixedRoundTrip(b as nat, 16, 2);
  }

  /** `bytes.hex()`. */
  function HexText(s: bytes): (r: string)
    ensures |r| == 2 * |s|
  {
    if s == [] then [] else HexByte(s[0]) + HexText(s[1..])
  }

  /** Two digits for each byte, the high one first. */
  lemma {:induction false} HexTextAt(s: bytes, i: nat)
    requires i < |s|
    ensures HexValue(HexText(s)[2 * i]) == Some(s[i] as nat / 16) && HexValue(HexText(s)[2 * i + 1]) == Some(s[i] as nat % 16)
  {
    if i == 0 {
      TwoDigits(s[0]);
    } else {
      HexTextAt(s[1..], i - 1);
    }
  }

  lemma TwoDigits(b: byte)
    ensures HexByte(b) == [Digit(b as nat / 16), Digit(b as nat % 16)]
    ensures HexValue(HexByte(b)[0]) == Some(b as nat / 16) && HexValue(HexByte(b)[1]) == Some(b as nat % 16)
  {
    var n := b as nat;
    assert Fixed(n / 16, 16, 1) == Fixed(n / 16 / 16, 16, 0) + [Digit(n / 16 % 16)];
    HexDigit(n / 16);
    HexDigit(n % 16);
  }

  lemma {:induction false} HexTextInjective(a: bytes, b: bytes)
    requires HexText(a) == HexText(b)
    ensures a == b
  {
    assert |a| == |b|;
    if a != [] {
      Heads(HexByte(a[0]), HexText(a[1..]), HexByte(b[0]), HexText(b[1..]));
      HexByteInjective(a[0], b[0]);
      HexTextInjective(a[1..], b[1..]);
      assert a == [a[0]] + a[1..] && b == [b[0]] + b[1..];
    }
  }

  /** Equal texts whose fronts are equally long have equal fronts and equal rests. */
  lemma Heads(a: string, x: string, b: string, y: string)
    requires a + x == b + y && |a| == |b|
    ensures a == b && x == y
  {
    assert (a + x)[..|a|] == a && (b + y)[..|b|] == b;
    assert (a + x)[|a|..] == x && (b + y)[|b|..] == y;
  }
}
