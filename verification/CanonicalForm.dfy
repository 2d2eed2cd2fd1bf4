/**
 * The canonical encoding said outright: the tag and the text of every kind of value,
 * read back from the text without the functions that wrote it.
 */
module CanonicalForm {
  import opened Prelude
  import opened Numerals
  import opened Rounding
  import DecimalText
  import opened Scalars
  import opened Sorting
  import opened Lexicographic
  import opened JsonText
  import opened Canonical

  /** A tagged value with one text after its tag. */
  predicate IsTagged(v: Value, tag: string, text: string) { Encode(v) == Some(JList([JText(tag), JText(text)])) }

  lemma OneText(tag: string, text: string)
    ensures JList([JText(tag)] + [JText(text)]) == JList([JText(tag), JText(text)])
  {
    assert [JText(tag)] + [JText(text)] == [JText(tag), JText(text)];
  }

  lemma PlainForms(b: bool, text: string)
    ensures Encode(Null) == Some(JList([JText("null")]))
    ensures Encode(Boolean(b)) == Some(JList([JText("bool"), JBool(b)]))
    ensures IsTagged(Text(text), "string", text) && IsTagged(Enumerated(text), "enum", text)
  {
    assert [JText("null")] + [] == [JText("null")];
    assert [JText("bool")] + [JBool(b)] == [JText("bool"), JBool(b)];
    OneText("string", text);
    OneText("enum", text);
  }

  // ----- Numbers -----

  /** A numeral as people write it: digits, and no zero in front but a lone one. */
  predicate IsNumeral(s: string) { s != [] && AllDigits(s) && (s[0] == '0' ==> s == "0") }

  lemma DigitsForm(n: nat)
    ensures IsNumeral(Digits(n)) && Numerals.Read(Digits(n), 10) == n
  {
    DigitsRoundTrip(n);
    NoLeadingZero(n);
  }

  /** An integer is written as its numeral, after a minus sign exactly when it is negative. */
  lemma IntegerForm(i: int) returns (digits: string)
    ensures IsTagged(Integer(i), "integer", if i < 0 then ['-'] + digits else digits)
    ensures IsNumeral(digits) && Numerals.Read(digits, 10) == if i < 0 then -i else i
  {
    digits := Digits(if i < 0 then -i else i);
    DigitsForm(if i < 0 then -i else i);
    assert "-" + digits == ['-'] + digits;
    OneText("integer", IntText(i));
  }

  /** A decimal that is not zero shows, after its sign, its value to 28 digits, without a zero at the end of a fraction. */
  lemma DecimalForm(d: Decimal) returns (text: string, shown: nat, places: nat)
    requires d.coefficient > 0
    ensures IsTagged(Number(d), "decimal", if d.negative then ['-'] + text else text)
    ensures DecimalText.ReadPlain(text) == (shown, places) && (places > 0 ==> shown % 10 != 0)
    ensures DecimalText.SameNumber(shown, 0 - places, Round(d.coefficient, DecimalText.PRECISION), d.exponent)
  {
    var c, e := DecimalText.TextBody(d);
    text := DecimalText.Plain(c, e);
    shown, places := DecimalText.Shown(c, e).0, DecimalText.Shown(c, e).1;
    ShownText(c, e, text);
    ShownIsRounded(d, c, e);
    NumberTagged(d, if d.negative then ['-'] + text else text);
  }

  lemma ShownText(c: nat, e: int, text: string)
    requires text == DecimalText.Plain(c, e) && c % 10 != 0
    ensures DecimalText.ReadPlain(text) == DecimalText.Shown(c, e)
    ensures DecimalText.Shown(c, e).1 > 0 ==> DecimalText.Shown(c, e).0 % 10 != 0
  {
    DecimalText.PlainRead(c, e);
  }

  lemma NumberTagged(d: Decimal, text: string)
    requires text == DecimalText.Text(d)
    ensures IsTagged(Number(d), "decimal", text)
  {
    OneText("decimal", text);
  }

  lemma FloatTagged(f: Float, text: string)
    requires f.Finite() && text == FloatText(f)
    ensures IsTagged(Floating(f), "float", text)
  {
    OneText("float", text);
  }

  lemma TimeTagged(m: Moment, text: string)
    requires m.Valid() && m.InRange() && text == InstantText(m.Instant())
    ensures IsTagged(Time(m), "datetime", text)
  {
    OneText("datetime", text);
  }

  /** Digits after the point, moved into the exponent. */
  lemma ShownIn(c: nat, e: int, lo: int)
    requires lo <= e && lo <= 0
    ensures DecimalText.Shown(c, e).0 * Pow10(0 - DecimalText.Shown(c, e).1 - lo) == c * Pow10(e - lo)
  {
    if e >= 0 {
      Pow10Add(e, -lo);
      assert e + -lo == e - lo;
      Associate(c, Pow10(e), Pow10(-lo));
    }
  }

  lemma ShownIsRounded(d: Decimal, c: nat, e: int)
    requires Round(d.coefficient, DecimalText.PRECISION) > 0
    requires (c, e) == DecimalText.Strip(Round(d.coefficient, DecimalText.PRECISION), d.exponent)
    ensures DecimalText.SameNumber(DecimalText.Shown(c, e).0, 0 - DecimalText.Shown(c, e).1, Round(d.coefficient, DecimalText.PRECISION), d.exponent)
  {
    var rounded := Round(d.coefficient, DecimalText.PRECISION);
    ShownIsStripped(rounded, d.exponent, c, e);
  }

  lemma ShownIsStripped(rounded: nat, exponent: int, c: nat, e: int)
    requires rounded > 0 && (c, e) == DecimalText.Strip(rounded, exponent)
    ensures DecimalText.SameNumber(DecimalText.Shown(c, e).0, 0 - DecimalText.Shown(c, e).1, rounded, exponent)
  {
    var lo := if exponent <= 0 then exponent else 0;
    ShownIn(c, e, lo);
    DecimalText.StripIn(rounded, exponent, lo);
    DecimalText.SameIn(DecimalText.Shown(c, e).0, 0 - DecimalText.Shown(c, e).1, rounded, exponent, lo);
  }

  lemma ZeroForm(d: Decimal)
    requires d.coefficient == 0
    ensures IsTagged(Number(d), "decimal", "0")
  {
    NumberTagged(d, "0");
  }

  // ----- Floating point -----

  /** The hexadecimal text of a double that is not zero, part by part. */
  predicate IsHexFloat(text: string, f: Float, fraction: string, power: string) {
    && text == (if f.negative then "-0x" else "0x") + [if f.biased == 0 then '0' else '1'] + ['.'] + fraction + ['p'] + power
    && |fraction| == 13 && Numerals.Read(fraction, 16) == f.fraction
  }

  /** The power of two is written with its sign; subnormal numbers share the least one. */
  predicate IsPower(power: string, digits: string, biased: nat) {
    var e := if biased == 0 then -1022 else biased - 1023;
    power == [if e < 0 then '-' else '+'] + digits && IsNumeral(digits) && Numerals.Read(digits, 10) == if e < 0 then -e else e
  }

  lemma FloatForm(f: Float) returns (text: string, fraction: string, power: string, digits: string)
    requires f.Valid() && f.Finite() && !f.Zero()
    ensures IsTagged(Floating(f), "float", text)
    ensures IsHexFloat(text, f, fraction, power) && IsPower(power, digits, f.biased)
  {
    text := FloatText(f);
    fraction := FractionForm(f.fraction);
    power, digits := BinaryPower(f.biased);
    FloatParts(f);
    FloatTagged(f, text);
  }

  lemma FractionForm(fraction: nat) returns (text: string)
    requires fraction < FRACTIONS
    ensures text == Fixed(fraction, 16, 13) && |text| == 13 && Numerals.Read(text, 16) == fraction
  {
    text := Fixed(fraction, 16, 13);
    ThirteenHexDigits();
    FixedRoundTrip(fraction, 16, 13);
  }

  lemma BinaryPower(biased: nat) returns (power: string, digits: string)
    ensures power == ExponentText(Exponent(biased)) && IsPower(power, digits, biased)
  {
    var e := Exponent(biased);
    power := ExponentText(e);
    digits := Digits(if e < 0 then -e else e);
    DigitsForm(if e < 0 then -e else e);
    PowerForm(e, digits);
  }

  lemma PowerForm(e: int, digits: string)
    requires digits == Digits(if e < 0 then -e else e)
    ensures ExponentText(e) == [if e < 0 then '-' else '+'] + digits
  {
    assert "-" + digits == ['-'] + digits;
  }

  lemma FloatParts(f: Float)
    requires !f.Zero()
    ensures FloatText(f) == (if f.negative then "-0x" else "0x") + [if f.biased == 0 then '0' else '1'] + ['.']
                            + Fixed(f.fraction, 16, 13) + ['p'] + ExponentText(Exponent(f.biased))
  {
    assert "-0x" == ['-'] + ['0', 'x'] && "0x" == ['0', 'x'];
  }

  /** Zero has one text whatever its sign. */
  lemma ZeroFloatForm(f: Float)
    requires f.Zero()
    ensures IsTagged(Floating(f), "float", "0x0.0p+0")
  {
    assert FloatText(f) == "0x0.0p+0";
    FloatTagged(f, "0x0.0p+0");
  }

  // ----- Instants -----

  /** A date and time of day as numbers. */
  datatype Civil = Civil(year: nat, month: nat, day: nat, hour: nat, minute: nat, second: nat, micro: nat)
  {
    predicate Valid() {
      && 1 <= year <= 9999 && 1 <= month <= 12 && 1 <= day <= 31
      && hour < 24 && minute < 60 && second < 60 && micro < 1_000_000
    }

    /** Microseconds since the start of year 1, by the calendar. */
    function Instant(): nat
      requires Valid()
    {
      (DaysBefore(year) + Cumulative(month, Leap(year)) + (day - 1)) * DAY
      + ((hour * 60 + minute) * 60 + second) * 1_000_000 + micro
    }
  }

  /** `YYYY-MM-DDTHH:MM:SS.ffffffZ`, each field a decimal number of its width. */
  predicate IsIso(text: string, c: Civil) {
    && |text| == 27
    && text[4] == '-' && text[7] == '-' && text[10] == 'T' && text[13] == ':' && text[16] == ':' && text[19] == '.' && text[26] == 'Z'
    && Field(text, 0, 4) == c.year && Field(text, 5, 7) == c.month && Field(text, 8, 10) == c.day
    && Field(text, 11, 13) == c.hour && Field(text, 14, 16) == c.minute && Field(text, 17, 19) == c.second
    && Field(text, 20, 26) == c.micro
  }

  function Field(text: string, from: nat, to: nat): nat
    requires from <= to <= |text|
  {
    Numerals.Read(text[from..to], 10)
  }

  /** A moment is written as its instant in UTC, read by the calendar. */
  lemma TimeForm(m: Moment) returns (text: string, c: Civil)
    requires m.Valid() && m.InRange()
    ensures IsTagged(Time(m), "datetime", text) && IsIso(text, c)
    ensures c.Valid() && c.Instant() == m.wall - (if m.offset.Some? then m.offset.value else 0)
  {
    var n := m.Instant();
    text := InstantText(n);
    TimeTagged(m, text);
    c := CivilOf(n);
    IsoForm(n, c);
  }

  lemma CivilOf(n: nat) returns (c: Civil)
    requires n < DAYS * DAY
    ensures c.Valid() && c.Instant() == n && Shows(c, n)
  {
    var day, t := n / DAY, n % DAY;
    var (y, d) := YearOf(day, 1);
    var (m, k) := MonthOf(d, 1, Leap(y));
    var s := t / 1_000_000;
    YearOfDay(day, 1);
    LastYear(day);
    WholeYear(Leap(y));
    MonthOfDay(d, 1, Leap(y));
    MonthOfRoundTrip(d, 1, Leap(y));
    MonthStarts(m, Leap(y));
    Clock(s);
    c := Civil(y, m, k + 1, s / 3600, s / 60 % 60, s % 60, t % 1_000_000);
    CivilAdds(c, day, t);
  }

  lemma CivilAdds(c: Civil, day: nat, t: nat)
    requires c.Valid() && DaysBefore(c.year) + Cumulative(c.month, Leap(c.year)) + (c.day - 1) == day
    requires ((c.hour * 60 + c.minute) * 60 + c.second) * 1_000_000 + c.micro == t < DAY
    ensures c.Instant() == day * DAY + t
  {
  }

  /** The numbers that the text of an instant is made of. */
  predicate Shows(c: Civil, n: nat) {
    var (y, d) := YearOf(n / DAY, 1);
    var (m, k) := MonthOf(d, 1, Leap(y));
    var t := n % DAY;
    var s := t / 1_000_000;
    c == Civil(y, m, k + 1, s / 3600, s / 60 % 60, s % 60, t % 1_000_000)
  }

  lemma IsoForm(n: nat, c: Civil)
    requires c.Valid() && Shows(c, n)
    ensures IsIso(InstantText(n), c)
  {
    DecimalWidths();
    FixedRoundTrip(c.year, 10, 4);
    FixedRoundTrip(c.month, 10, 2);
    FixedRoundTrip(c.day, 10, 2);
    FixedRoundTrip(c.hour, 10, 2);
    FixedRoundTrip(c.minute, 10, 2);
    FixedRoundTrip(c.second, 10, 2);
    FixedRoundTrip(c.micro, 10, 6);
    IsoParts(n, c);
  }

  lemma IsoParts(n: nat, c: Civil)
    requires Shows(c, n)
    ensures var t := InstantText(n);
            && |t| == 27
            && t[0..4] == Fixed(c.year, 10, 4) && t[4] == '-' && t[5..7] == Fixed(c.month, 10, 2) && t[7] == '-' && t[8..10] == Fixed(c.day, 10, 2)
            && t[10] == 'T' && t[11..13] == Fixed(c.hour, 10, 2) && t[13] == ':' && t[14..16] == Fixed(c.minute, 10, 2) && t[16] == ':'
            && t[17..19] == Fixed(c.second, 10, 2) && t[19] == '.' && t[20..26] == Fixed(c.micro, 10, 6) && t[26] == 'Z'
  {
    var t, date, time := InstantText(n), DateText(n / DAY), TimeText(n % DAY);
    assert t == date + ['T'] + time + ['Z'];
    InMiddle(date, time, t);
    DateFields(c, n);
    TimeFields(c, n);
  }

  /** Pieces of the date and of the time are pieces of the whole. */
  lemma InMiddle(date: string, time: string, t: string)
    requires |date| == 10 && |time| == 15 && t == date + ['T'] + time + ['Z']
    ensures |t| == 27 && t[10] == 'T' && t[26] == 'Z'
    ensures forall i, j :: 0 <= i <= j <= 10 ==> t[i..j] == date[i..j]
    ensures forall i, j :: 0 <= i <= j <= 15 ==> t[11 + i..11 + j] == time[i..j]
    ensures t[4] == date[4] && t[7] == date[7] && t[13] == time[2] && t[16] == time[5] && t[19] == time[8]
    ensures t[11..13] == time[0..2] && t[14..16] == time[3..5] && t[17..19] == time[6..8] && t[20..26] == time[9..15]
  {
    forall i, j | 0 <= i <= j <= 15
      ensures t[11 + i..11 + j] == time[i..j]
    {
    }
    assert t[11 + 0..11 + 2] == time[0..2] && t[11 + 3..11 + 5] == time[3..5];
    assert t[11 + 6..11 + 8] == time[6..8] && t[11 + 9..11 + 15] == time[9..15];
  }

  lemma DateFields(c: Civil, n: nat)
    requires Shows(c, n)
    ensures var date := DateText(n / DAY);
            date[0..4] == Fixed(c.year, 10, 4) && date[4] == '-' && date[5..7] == Fixed(c.month, 10, 2) && date[7] == '-'
            && date[8..10] == Fixed(c.day, 10, 2)
  {
  }

  lemma TimeFields(c: Civil, n: nat)
    requires Shows(c, n)
    ensures var time := TimeText(n % DAY);
            && time[0..2] == Fixed(c.hour, 10, 2) && time[2] == ':' && time[3..5] == Fixed(c.minute, 10, 2) && time[5] == ':'
            && time[6..8] == Fixed(c.second, 10, 2) && time[8] == '.' && time[9..15] == Fixed(c.micro, 10, 6)
  {
    TimePieces(Fixed(c.hour, 10, 2), Fixed(c.minute, 10, 2), Fixed(c.second, 10, 2), Fixed(c.micro, 10, 6), TimeText(n % DAY));
  }

  lemma TimePieces(h: string, m: string, s: string, u: string, time: string)
    requires |h| == |m| == |s| == 2 && |u| == 6
    requires time == h + ([':'] + (m + ([':'] + (s + (['.'] + u)))))
    ensures |time| == 15 && time[0..2] == h && time[2] == ':' && time[3..5] == m && time[5] == ':'
    ensures time[6..8] == s && time[8] == '.' && time[9..15] == u
  {
  }

  // ----- Bytes and containers -----

  lemma BytesForm(data: bytes) returns (text: string)
    ensures IsTagged(Blob(data), "bytes", text) && |text| == 2 * |data|
    ensures forall i :: 0 <= i < |data| ==>
              HexValue(text[2 * i]) == Some(data[i] as nat / 16) && HexValue(text[2 * i + 1]) == Some(data[i] as nat % 16)
  {
    text := HexText(data);
    OneText("bytes", text);
    forall i | 0 <= i < |data| {
      HexTextAt(data, i);
    }
  }

  /** Lists and tuples hold their items' encodings in order. */
  lemma ArrayForm(isTuple: bool, items: seq<Value>) returns (encoded: seq<Json>)
    requires Accepted(Array(isTuple, items))
    ensures Encode(Array(isTuple, items)) == Some(JList([JText("array"), JList(encoded)]))
    ensures |encoded| == |items| && forall i :: 0 <= i < |items| ==> Encode(items[i]) == Some(encoded[i])
  {
    EncodesAccepted(Array(isTuple, items));
    encoded := EncodeItems(items).value;
    assert [JText("array")] + [JList(encoded)] == [JText("array"), JList(encoded)];
  }

  /** The keys rise in the order of their characters. */
  predicate Ascending(pairs: seq<Pair>) {
    forall i, j :: 0 <= i < j < |pairs| ==> pairs[i].key != pairs[j].key && TextLeq(pairs[i].key, pairs[j].key)
  }

  /** A dictionary holds a list of key and value for each entry, in the order of the keys. */
  lemma ObjectForm(entries: seq<Entry>) returns (coded: seq<Pair>, pairs: seq<Pair>, lists: seq<Json>)
    requires WellFormed(Object(entries)) && Accepted(Object(entries))
    ensures |coded| == |entries| && forall i :: 0 <= i < |entries| ==> EncodesTo(entries[i], coded[i])
    ensures multiset(pairs) == multiset(coded) && Ascending(pairs)
    ensures |lists| == |pairs| && forall i :: 0 <= i < |pairs| ==> lists[i] == JList([JText(pairs[i].key), pairs[i].value])
    ensures Encode(Object(entries)) == Some(JList([JText("object"), JList(lists)]))
  {
    coded := CodedEntries(entries);
    pairs := Sort(PairLeq, coded);
    lists := PairJsons(pairs);
    PairJsonsAt(pairs);
    KeysAscend(coded, pairs);
    ObjectEncoded(entries, lists);
  }

  predicate EncodesTo(e: Entry, p: Pair) { e.key == Some(p.key) && Encode(e.value) == Some(p.value) }

  lemma CodedEntries(entries: seq<Entry>) returns (coded: seq<Pair>)
    requires WellFormed(Object(entries)) && Accepted(Object(entries))
    ensures |coded| == |entries| && DistinctKeys(coded) && forall i :: 0 <= i < |entries| ==> EncodesTo(entries[i], coded[i])
    ensures Body(Object(entries)) == Some([JList(PairJsons(Sort(PairLeq, coded)))])
  {
    coded := ObjectBody(Object(entries));
    forall i | 0 <= i < |entries|
      ensures EncodesTo(entries[i], coded[i])
    {
      EntryCoded(entries[i], coded[i]);
    }
  }

  lemma EntryCoded(e: Entry, p: Pair)
    requires EncodeEntry(e) == Some(p)
    ensures EncodesTo(e, p)
  {
  }

  lemma ObjectEncoded(entries: seq<Entry>, lists: seq<Json>)
    requires Body(Object(entries)) == Some([JList(lists)])
    ensures Encode(Object(entries)) == Some(JList([JText("object"), JList(lists)]))
  {
    assert [JText("object")] + [JList(lists)] == [JText("object"), JList(lists)];
  }

  lemma KeysAscend(coded: seq<Pair>, pairs: seq<Pair>)
    requires DistinctKeys(coded) && pairs == Sort(PairLeq, coded)
    ensures Ascending(pairs)
  {
    PairOrder(coded);
    SortSorted(PairLeq, coded);
    KeysStayDistinct(coded, pairs);
    assert forall i, j :: 0 <= i < j < |pairs| ==> PairLeq(pairs[i], pairs[j]);
  }

  lemma KeysStayDistinct(a: seq<Pair>, b: seq<Pair>)
    requires DistinctKeys(a) && multiset(a) == multiset(b)
    ensures DistinctKeys(b)
  {
    Members(a, b);
    forall i, j | 0 <= i < j < |b|
      ensures b[i].key != b[j].key
    {
      if b[i].key == b[j].key {
        assert b[i] in a && b[j] in a;
        assert b[i] == b[j];
        TwiceIn(b, i, j);
        DistinctOnce(a, b[i]);
      }
    }
  }

  lemma TwiceIn<T>(s: seq<T>, i: nat, j: nat)
    requires i < j < |s| && s[i] == s[j]
    ensures multiset(s)[s[i]] >= 2
  {
    assert s == s[..i] + [s[i]] + s[i + 1..j] + [s[j]] + s[j + 1..];
  }
}
