/**
 * The compact JSON text of a tagged value (`json.dumps` without ASCII escaping and
 * with tight separators), and a parser that undoes it.
 */
module JsonText {
  import opened Prelude
  import opened Numerals

  /** Tagged values hold booleans, text and lists only. */
  datatype Json = JBool(b: bool) | JText(text: string) | JList(items: seq<Json>)

  /** The short escapes, by the letter after the backslash. */
  function ShortEscape(c: char): Option<char> {
    if c == '"' then Some('"') else if c == '\\' then Some('\\') else if c == '\n' then Some('n')
    else if c == '\r' then Some('r') else if c == '\t' then Some('t') else if c == '\U{8}' then Some('b')
    else if c == '\U{C}' then Some('f') else None
  }

  function UnescapeLetter(e: char): Option<char> {
    if e == '"' then Some('"') else if e == '\\' then Some('\\') else if e == 'n' then Some('\n')
    else if e == 'r' then Some('\r') else if e == 't' then Some('\t') else if e == 'b' then Some('\U{8}')
    else if e == 'f' then Some('\U{C}') else None
  }

  function PrintChar(c: char): (r: string)
    ensures r != []
  {
    match ShortEscape(c)
    case Some(letter) => ['\\', letter]
    case None => if c as int < 32 then ['\\', 'u', '0', '0', Digit(c as int / 16), Digit(c as int % 16)] else [c]
  }

  /** One character of a string body and how much text it took; None at a quote or a malformed escape. */
  function ReadChar(t: string): (r: Option<(char, nat)>)
    ensures r.Some? ==> 0 < r.value.1 <= |t|
  {
    if t == [] || t[0] == '"' then None
    else if t[0] != '\\' then Some((t[0], 1))
    else if |t| < 2 then None
    else if t[1] == 'u' then
      if |t| >= 6 && t[2] == '0' && t[3] == '0' && HexValue(t[4]).Some? && HexValue(t[5]).Some? then
        Some(((HexValue(t[4]).value * 16 + HexValue(t[5]).value) as char, 6))
      else None
    else
      match UnescapeLetter(t[1])
      case Some(c) => Some((c, 2))
      case None => None
  }

  /** What is escaped, and how: quote, backslash and five controls by a letter, the other controls by number, nothing else. */
  lemma Escapes(c: char)
    ensures PrintChar(c) == [c] <==> c as int >= 32 && c != '"' && c != '\\'
    ensures PrintChar(c) != [c] ==> PrintChar(c)[0] == '\\'
    ensures |PrintChar(c)| == 2 <==> c in {'"', '\\', '\n', '\r', '\t', '\U{8}', '\U{C}'}
    ensures |PrintChar(c)| in {1, 2, 6}
  {
  }

  lemma CharRoundTrip(c: char, rest: string)
    ensures ReadChar(PrintChar(c) + rest) == Some((c, |PrintChar(c)|))
  {
    if ShortEscape(c) == None && c as int < 32 {
      HexDigit(c as int / 16);
      HexDigit(c as int % 16);
    }
  }

  function PrintChars(s: string): string {
    if s == [] then [] else PrintChar(s[0]) + PrintChars(s[1..])
  }

  /** A string body up to its closing quote, and what follows the quote. */
  function ReadChars(t: string): (r: Option<(string, string)>)
    ensures r.Some? ==> |r.value.1| < |t|
    decreases |t|
  {
    if t == [] then None
    else if t[0] == '"' then Some(([], t[1..]))
    else
      match ReadChar(t)
      case None => None
      case Some((c, n)) =>
        match ReadChars(t[n..])
        case None => None
        case Some((s, rest)) => Some(([c] + s, rest))
  }

  lemma {:induction false} CharsRoundTrip(s: string, rest: string)
    ensures ReadChars(PrintChars(s) + ['"'] + rest) == Some((s, rest))
  {
    if s == [] {
      assert PrintChars(s) + ['"'] + rest == ['"'] + rest;
    } else {
      var tail := PrintChars(s[1..]) + ['"'] + rest;
      var t := PrintChar(s[0]) + tail;
      assert PrintChars(s) + ['"'] + rest == t;
      CharRoundTrip(s[0], tail);
      CharsRoundTrip(s[1..], rest);
      assert t[|PrintChar(s[0])|..] == tail;
      assert t[0] != '"' by {
        assert t[0] == PrintChar(s[0])[0];
      }
      assert s == [s[0]] + s[1..];
    }
  }

  function Print(j: Json): (r: string)
    ensures r != []
    decreases j, 0
  {
    match j
    case JBool(b) => if b then "true" else "false"
    case JText(s) => ['"'] + PrintChars(s) + ['"']
    case JList(items) => ['['] + PrintItems(items) + [']']
  }

  function PrintItems(items: seq<Json>): string
    decreases items, 1
  {
    if items == [] then []
    else if |items| == 1 then Print(items[0])
    else Print(items[0]) + [','] + PrintItems(items[1..])
  }

  predicate StartsWith(t: string, word: string) { |t| >= |word| && t[..|word|] == word }

  function ReadWord(t: string): (r: Option<(Json, string)>)
    ensures r.Some? ==> |r.value.1| < |t|
  {
    if StartsWith(t, "true") then Some((JBool(true), t[4..]))
    else if StartsWith(t, "false") then Some((JBool(false), t[5..]))
    else None
  }

  lemma WordRoundTrip(b: bool, rest: string)
    ensures ReadWord(Print(JBool(b)) + rest) == Some((JBool(b), rest))
  {
    var t := Print(JBool(b)) + rest;
    if b {
      assert t[..4] == "true" && t[4..] == rest;
    } else {
      assert t[0] == 'f';
      assert t[..5] == "false" && t[5..] == rest;
    }
  }

  /** One value at the front of the text, and what follows it. */
  function Read(t: string): (r: Option<(Json, string)>)
    ensures r.Some? ==> |r.value.1| < |t|
    decreases |t|, 0
  {
    if t == [] then None
    else if t[0] == '[' then
      if |t| >= 2 && t[1] == ']' then Some((JList([]), t[2..]))
      else
        match ReadItems(t[1..])
        case None => None
        case Some((items, rest)) => Some((JList(items), rest))
    else if t[0] == '"' then
      match ReadChars(t[1..])
      case None => None
      case Some((s, rest)) => Some((JText(s), rest))
    else ReadWord(t)
  }

  /** One or more values separated by commas up to the closing bracket, and what follows it. */
  function ReadItems(t: string): (r: Option<(seq<Json>, string)>)
    ensures r.Some? ==> |r.value.1| < |t|
    decreases |t|, 1
  {
    match Read(t)
    case None => None
    case Some((j, rest)) =>
      if rest != [] && rest[0] == ']' then Some(([j], rest[1..]))
      else if rest != [] && rest[0] == ',' then
        match ReadItems(rest[1..])
        case None => None
        case Some((items, after)) => Some(([j] + items, after))
      else None
  }

  lemma FirstChar(j: Json)
    ensures Print(j)[0] != ']'
  {
  }

  /** Reading undoes printing, on every value and before any text. */
  lemma {:induction false} RoundTrip(j: Json, rest: string)
    ensures Read(Print(j) + rest) == Some((j, rest))
    decreases j, 0
  {
    var t := Print(j) + rest;
    match j
    case JBool(b) =>
      WordRoundTrip(b, rest);
      assert t[0] == Print(JBool(b))[0];
    case JText(s) =>
      CharsRoundTrip(s, rest);
      assert t[0] == '"' && t[1..] == PrintChars(s) + ['"'] + rest;
    case JList(items) =>
      ListRoundTrip(items, rest);
  }

  lemma Bracketed(body: string, rest: string)
    ensures (['['] + body + [']']) + rest == ['['] + (body + [']'] + rest)
  {
  }

  lemma Separated(first: string, body: string, rest: string)
    ensures (first + [','] + body) + [']'] + rest == first + ([','] + (body + [']'] + rest))
  {
  }

  lemma ReadBracket(items: seq<Json>, tail: string, rest: string)
    requires tail != [] && tail[0] != ']' && ReadItems(tail) == Some((items, rest))
    ensures Read(['['] + tail) == Some((JList(items), rest))
  {
    assert (['['] + tail)[1..] == tail;
  }

  lemma ReadComma(j: Json, t: string, tail: string, items: seq<Json>, rest: string)
    requires Read(t) == Some((j, [','] + tail)) && ReadItems(tail) == Some((items, rest))
    ensures ReadItems(t) == Some(([j] + items, rest))
  {
    assert ([','] + tail)[1..] == tail;
  }

  lemma EmptyRoundTrip(rest: string)
    ensures Read(Print(JList([])) + rest) == Some((JList([]), rest))
  {
    var t := Print(JList([])) + rest;
    assert PrintItems([]) == [];
    assert t[0] == '[' && t[1] == ']' && t[2..] == rest;
  }

  lemma {:induction false} ListRoundTrip(items: seq<Json>, rest: string)
    ensures Read(Print(JList(items)) + rest) == Some((JList(items), rest))
    decreases items, 2
  {
    if items == [] {
      EmptyRoundTrip(rest);
    } else {
      var tail := PrintItems(items) + [']'] + rest;
      Bracketed(PrintItems(items), rest);
      ItemsRoundTrip(items, rest);
      FirstChar(items[0]);
      assert tail[0] == PrintItems(items)[0] == Print(items[0])[0];
      ReadBracket(items, tail, rest);
    }
  }

  lemma {:induction false} ItemsRoundTrip(items: seq<Json>, rest: string)
    requires items != []
    ensures ReadItems(PrintItems(items) + [']'] + rest) == Some((items, rest))
    decreases items, 1
  {
    if |items| == 1 {
      LastItem(items[0], rest);
      assert items == [items[0]];
    } else {
      var tail := PrintItems(items[1..]) + [']'] + rest;
      RoundTrip(items[0], [','] + tail);
      Separated(Print(items[0]), PrintItems(items[1..]), rest);
      ItemsRoundTrip(items[1..], rest);
      ReadComma(items[0], Print(items[0]) + ([','] + tail), tail, items[1..], rest);
      assert items == [items[0]] + items[1..];
    }
  }

  lemma {:induction false} LastItem(j: Json, rest: string)
    ensures ReadItems(Print(j) + [']'] + rest) == Some(([j], rest))
    decreases j, 1
  {
    RoundTrip(j, [']'] + rest);
    assert Print(j) + [']'] + rest == Print(j) + ([']'] + rest);
    assert ([']'] + rest)[1..] == rest;
  }

  /** So different values print differently. */
  lemma PrintInjective(a: Json, b: Json)
    ensures Print(a) == Print(b) <==> a == b
  {
    RoundTrip(a, []);
    RoundTrip(b, []);
    assert Print(a) + [] == Print(a) && Print(b) + [] == Print(b);
  }
}
