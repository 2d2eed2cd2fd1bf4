/** UTF-8 as section 3 of RFC 3629 defines it, with the decoder that undoes it. */
module Utf8 {
  import opened Prelude

  function B(n: int): byte
    requires 0 <= n < 256
  {
    n as byte
  }

  function EncodeChar(c: char): (r: bytes)
    ensures 1 <= |r| <= 4
  {
    var n := c as int;
    var n1 := n / 64;
    var n2 := n1 / 64;
    if n < 0x80 then [B(n)]
    else if n < 0x800 then [B(0xC0 + n1), B(0x80 + n % 64)]
    else if n < 0x1_0000 then [B(0xE0 + n2), B(0x80 + n1 % 64), B(0x80 + n % 64)]
    else [B(0xF0 + n2 / 64), B(0x80 + n2 % 64), B(0x80 + n1 % 64), B(0x80 + n % 64)]
  }

  function Encode(s: string): bytes {
    if s == [] then [] else EncodeChar(s[0]) + Encode(s[1..])
  }

  /** How many bytes the character with this first byte takes. */
  function Width(first: byte): nat {
    var b := first as int;
    if b < 0x80 then 1 else if b < 0xE0 then 2 else if b < 0xF0 then 3 else 4
  }

  function Payload(b: byte): int { b as int - 0x80 }

  /** The code point of a whole encoded character. */
  function Scalar(s: bytes): int
    requires s != [] && |s| == Width(s[0])
  {
    var b := s[0] as int;
    if |s| == 1 then b
    else if |s| == 2 then (b - 0xC0) * 64 + Payload(s[1])
    else if |s| == 3 then (b - 0xE0) * 4096 + Payload(s[1]) * 64 + Payload(s[2])
    else (b - 0xF0) * 262144 + Payload(s[1]) * 4096 + Payload(s[2]) * 64 + Payload(s[3])
  }

  predicate IsChar(n: int) { 0 <= n < 0xD800 || 0xE000 <= n < 0x11_0000 }

  function Decode(s: bytes): Option<string>
    decreases |s|
  {
    if s == [] then Some([])
    else
      var w := Width(s[0]);
      if |s| < w || !IsChar(Scalar(s[..w])) then None
      else
        match Decode(s[w..])
        case None => None
        case Some(rest) => Some([Scalar(s[..w]) as char] + rest)
  }

  /** The shortest form: one byte below 128, and so on. */
  lemma ShortestForm(c: char)
    ensures |EncodeChar(c)| == if c as int < 0x80 then 1 else if c as int < 0x800 then 2 else if c as int < 0x1_0000 then 3 else 4
  {
  }

  lemma CharRoundTrip(c: char)
    ensures var e := EncodeChar(c); Width(e[0]) == |e| && Scalar(e) == c as int
  {
  }

  /** Decoding undoes encoding. */
  lemma {:induction false} RoundTrip(s: string)
    ensures Decode(Encode(s)) == Some(s)
  {
    if s != [] {
      var e, rest := EncodeChar(s[0]), Encode(s[1..]);
      CharRoundTrip(s[0]);
      assert (e + rest)[0] == e[0] && (e + rest)[..|e|] == e && (e + rest)[|e|..] == rest;
      RoundTrip(s[1..]);
      assert s == [s[0]] + s[1..];
    }
  }

  lemma EncodeInjective(a: string, b: string)
    ensures Encode(a) == Encode(b) <==> a == b
  {
    RoundTrip(a);
    RoundTrip(b);
  }
}
