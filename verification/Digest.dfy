/**
 * The bytes a table digest hashes: payloads in sorted order, each after its length
 * in eight big-endian bytes.
 */
module Digest {
  import opened Prelude
  import opened Sorting
  import opened Lexicographic

  const LIMIT := 0x1_0000_0000_0000_0000

  /** `n.to_bytes(width, "big")` for a number that fits. */
  function BigEndian(n: nat, width: nat): (r: bytes)
    ensures |r| == width
  {
    if width == 0 then [] else BigEndian(n / 256, width - 1) + [(n % 256) as byte]
  }

  /** The most significant byte first. */
  lemma {:induction false} BigEndianAt(n: nat, width: nat, k: nat)
    requires k < width
    ensures BigEndian(n, width)[k] as nat == n / Power256(width - 1 - k) % 256
  {
    if k < width - 1 {
      BigEndianAt(n / 256, width - 1, k);
      DivideTwice(n, Power256(width - 2 - k));
    }
  }

  lemma DivideTwice(n: nat, p: nat)
    requires p > 0
    ensures n / 256 / p == n / (256 * p)
  {
    var q := n / 256 / p;
    var r := n / 256 - p * q;
    assert 0 <= r < p;
    assert n == 256 * p * q + (256 * r + n % 256);
    Quotient(q, 256 * r + n % 256, 256 * p);
  }

  lemma Quotient(q: nat, r: nat, unit: nat)
    requires r < unit
    ensures (unit * q + r) / unit == q
  {
    var k := (unit * q + r) / unit;
    if k < q {
      Multiples(unit, k + 1, q);
    } else if k > q {
      Multiples(unit, q + 1, k);
    }
  }

  lemma Multiples(unit: nat, a: nat, b: nat)
    requires a <= b
    ensures unit * a <= unit * b && unit * (a + 1) == unit * a + unit
  {
  }

  function ReadBigEndian(s: bytes): nat {
    if s == [] then 0 else ReadBigEndian(s[..|s|-1]) * 256 + s[|s|-1] as nat
  }

  function Power256(width: nat): (r: nat)
    ensures r > 0
  {
    if width == 0 then 1 else 256 * Power256(width - 1)
  }

  lemma {:induction false} BigEndianRoundTrip(n: nat, width: nat)
    requires n < Power256(width)
    ensures ReadBigEndian(BigEndian(n, width)) == n
  {
    if width > 0 {
      BigEndianRoundTrip(n / 256, width - 1);
      var r := BigEndian(n, width);
      assert r[..|r|-1] == BigEndian(n / 256, width - 1);
    }
  }

  lemma PrefixWidth()
    ensures Power256(8) == LIMIT
  {
    assert Power256(4) == 0x1_0000_0000 by {
      assert Power256(2) == 0x1_0000;
    }
    assert Power256(6) == 256 * Power256(5) == 256 * (256 * Power256(4));
  }

  lemma ReadLength(n: nat, rest: bytes)
    requires n < LIMIT
    ensures ReadBigEndian((BigEndian(n, 8) + rest)[..8]) == n && (BigEndian(n, 8) + rest)[8..] == rest
  {
    PrefixWidth();
    BigEndianRoundTrip(n, 8);
    assert (BigEndian(n, 8) + rest)[..8] == BigEndian(n, 8);
  }

  predicate Fits(payloads: seq<bytes>) { forall p :: p in payloads ==> |p| < LIMIT }

  function Frame(payload: bytes): bytes { BigEndian(|payload|, 8) + payload }

  /** The frames of a list of payloads. */
  function Frames(payloads: seq<bytes>): bytes {
    if payloads == [] then [] else Frame(payloads[0]) + Frames(payloads[1..])
  }

  lemma {:induction false} FramesSnoc(payloads: seq<bytes>, last: bytes)
    ensures Frames(payloads + [last]) == Frames(payloads) + Frame(last)
  {
    if payloads == [] {
      assert Frames([]) == [] && [last][1..] == [];
      assert Frames([last]) == Frame(last) + Frames([]) == Frame(last);
    } else {
      assert (payloads + [last])[1..] == payloads[1..] + [last];
      FramesSnoc(payloads[1..], last);
    }
  }

  lemma NextFrame(ordered: seq<bytes>, i: nat)
    requires i < |ordered|
    ensures Frames(ordered[..i+1]) == (Frames(ordered[..i]) + BigEndian(|ordered[i]|, 8)) + ordered[i]
  {
    FramesSnoc(ordered[..i], ordered[i]);
    assert ordered[..i+1] == ordered[..i] + [ordered[i]];
    Associate(Frames(ordered[..i]), BigEndian(|ordered[i]|, 8), ordered[i]);
  }

  lemma Associate(a: bytes, b: bytes, c: bytes)
    ensures (a + b) + c == a + (b + c)
  {
  }

  /** What is fed to the hash, or None for the OverflowError of a length that does not fit. */
  function Stream(payloads: seq<bytes>): Option<bytes> {
    if Fits(payloads) then Some(Frames(Sort(BytesLeq, payloads))) else None
  }

  /** The digest's loop: sort, then update with each prefix and payload. */
  method DigestPayloads(payloads: seq<bytes>) returns (fed: Option<bytes>)
    ensures fed == Stream(payloads)
  {
    var ordered := Sort(BytesLeq, payloads);
    Members(ordered, payloads);
    var digest: bytes := [];
    for i := 0 to |ordered|
      invariant digest == Frames(ordered[..i])
      invariant forall k :: 0 <= k < i ==> |ordered[k]| < LIMIT
    {
      if |ordered[i]| >= LIMIT {
        assert ordered[i] in payloads;
        return None;
      }
      NextFrame(ordered, i);
      digest := digest + BigEndian(|ordered[i]|, 8);
      digest := digest + ordered[i];
    }
    assert ordered[..|ordered|] == ordered;
    fed := Some(digest);
  }

  /** Reading a stream back, frame by frame. */
  function Unframe(s: bytes): Option<seq<bytes>>
    decreases |s|
  {
    if s == [] then Some([])
    else if |s| < 8 then None
    else
      var n := ReadBigEndian(s[..8]);
      if |s| < 8 + n then None
      else
        match Unframe(s[8 + n..])
        case None => None
        case Some(rest) => Some([s[8..8 + n]] + rest)
  }

  /** Frames are uniquely decodable. */
  lemma {:induction false} UnframeFrames(payloads: seq<bytes>)
    requires Fits(payloads)
    ensures Unframe(Frames(payloads)) == Some(payloads)
  {
    if payloads != [] {
      var p, rest := payloads[0], Frames(payloads[1..]);
      var s := Frame(p) + rest;
      assert Frames(payloads) == s;
      ReadLength(|p|, p + rest);
      Associate(BigEndian(|p|, 8), p, rest);
      assert s[8..8 + |p|] == p && s[8 + |p|..] == rest;
      UnframeFrames(payloads[1..]);
      assert payloads == [p] + payloads[1..];
    }
  }

  lemma {:induction false} ReadPrefix(s: bytes)
    ensures ReadBigEndian(s) < Power256(|s|)
    ensures BigEndian(ReadBigEndian(s), |s|) == s
  {
    if s != [] {
      ReadPrefix(s[..|s|-1]);
      assert s == s[..|s|-1] + [s[|s|-1]];
    }
  }

  lemma Recut(s: bytes, m: nat, n: nat)
    requires m + n <= |s|
    ensures s == (s[..m] + s[m..m + n]) + s[m + n..]
  {
  }

  /** Every stream that can be read is the stream of what is read from it. */
  lemma {:induction false} FramesUnframe(s: bytes)
    requires Unframe(s).Some?
    ensures Frames(Unframe(s).value) == s
    decreases |s|
  {
    if s != [] {
      var n := ReadBigEndian(s[..8]);
      var rest := s[8 + n..];
      FramesUnframe(rest);
      ReadPrefix(s[..8]);
      var payload := s[8..8 + n];
      FramesCons(payload, Unframe(rest).value);
      Recut(s, 8, n);
    }
  }

  lemma FramesCons(payload: bytes, rest: seq<bytes>)
    ensures Frames([payload] + rest) == Frame(payload) + Frames(rest)
  {
    assert ([payload] + rest)[1..] == rest;
  }

  /** Two collections feed the hash the same bytes exactly when they are the same multiset. */
  lemma StreamIdentifiesMultiset(a: seq<bytes>, b: seq<bytes>)
    requires Fits(a) && Fits(b)
    ensures Stream(a) == Stream(b) <==> multiset(a) == multiset(b)
  {
    BytesOrder();
    SortCanonical(BytesLeq, a, b);
    Members(Sort(BytesLeq, a), a);
    Members(Sort(BytesLeq, b), b);
    UnframeFrames(Sort(BytesLeq, a));
    UnframeFrames(Sort(BytesLeq, b));
  }

  /** The order of the payloads never matters, overflow included. */
  lemma SameStream(a: seq<bytes>, b: seq<bytes>)
    requires multiset(a) == multiset(b)
    ensures Stream(a) == Stream(b)
  {
    Members(a, b);
    if Fits(a) {
      StreamIdentifiesMultiset(a, b);
    }
  }
}
