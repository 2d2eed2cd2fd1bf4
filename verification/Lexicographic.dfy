/** The order Python sorts byte strings and text by: element by element, a prefix first. */
module Lexicographic {
  import opened Prelude
  import opened Sorting

  predicate LexLeq(a: seq<int>, b: seq<int>) {
    a == [] || (b != [] && (a[0] < b[0] || (a[0] == b[0] && LexLeq(a[1..], b[1..]))))
  }

  /** They agree up to some place, where the first has the smaller element or has ended. */
  predicate LexBefore(a: seq<int>, b: seq<int>, i: nat) {
    i <= |a| && i <= |b| && a[..i] == b[..i] && (i == |a| || (i < |b| && a[i] < b[i]))
  }

  lemma TailPrefix(s: seq<int>, i: nat)
    requires 0 < i <= |s|
    ensures s[1..][..i - 1] == s[..i][1..] && s[..i][0] == s[0]
  {
  }

  lemma {:induction false} LexMeans(a: seq<int>, b: seq<int>)
    ensures LexLeq(a, b) <==> exists i: nat :: LexBefore(a, b, i)
  {
    if a == [] {
      assert LexBefore(a, b, 0);
    } else if b != [] {
      LexMeans(a[1..], b[1..]);
      if a[0] < b[0] {
        assert LexBefore(a, b, 0);
      } else if a[0] == b[0] && LexLeq(a[1..], b[1..]) {
        var i: nat :| LexBefore(a[1..], b[1..], i);
        assert a[..i + 1] == [a[0]] + a[1..][..i] && b[..i + 1] == [b[0]] + b[1..][..i];
        assert LexBefore(a, b, i + 1);
      }
      if i: nat :| LexBefore(a, b, i) && !LexLeq(a, b) {
        TailPrefix(a, i);
        TailPrefix(b, i);
        assert LexBefore(a[1..], b[1..], i - 1);
      }
    }
  }

  lemma {:induction false} LexTotal(a: seq<int>, b: seq<int>)
    ensures LexLeq(a, b) || LexLeq(b, a)
  {
    if a != [] && b != [] {
      LexTotal(a[1..], b[1..]);
    }
  }

  lemma {:induction false} LexTransitive(a: seq<int>, b: seq<int>, c: seq<int>)
    requires LexLeq(a, b) && LexLeq(b, c)
    ensures LexLeq(a, c)
  {
    if a != [] && b != [] && a[0] == b[0] && b[0] == c[0] {
      LexTransitive(a[1..], b[1..], c[1..]);
    }
  }

  lemma {:induction false} LexAntisymmetric(a: seq<int>, b: seq<int>)
    requires LexLeq(a, b) && LexLeq(b, a)
    ensures a == b
  {
    if a != [] {
      LexAntisymmetric(a[1..], b[1..]);
      assert a == [a[0]] + a[1..] && b == [b[0]] + b[1..];
    }
  }

  function ByteCodes(s: bytes): seq<int> { seq(|s|, i requires 0 <= i < |s| => s[i] as int) }

  function CharCodes(s: string): seq<int> { seq(|s|, i requires 0 <= i < |s| => s[i] as int) }

  predicate BytesLeq(a: bytes, b: bytes) { LexLeq(ByteCodes(a), ByteCodes(b)) }

  predicate TextLeq(a: string, b: string) { LexLeq(CharCodes(a), CharCodes(b)) }

  lemma BytesOrder()
    ensures TotalPreorder(BytesLeq)
    ensures forall a, b :: BytesLeq(a, b) && BytesLeq(b, a) ==> a == b
  {
    forall a, b
      ensures BytesLeq(a, b) || BytesLeq(b, a)
    {
      LexTotal(ByteCodes(a), ByteCodes(b));
    }
    forall a, b, c | BytesLeq(a, b) && BytesLeq(b, c)
      ensures BytesLeq(a, c)
    {
      LexTransitive(ByteCodes(a), ByteCodes(b), ByteCodes(c));
    }
    forall a, b | BytesLeq(a, b) && BytesLeq(b, a)
      ensures a == b
    {
      LexAntisymmetric(ByteCodes(a), ByteCodes(b));
      assert |a| == |ByteCodes(a)| == |b| && forall i :: 0 <= i < |a| ==> a[i] as int == ByteCodes(a)[i] == b[i] as int;
    }
  }

  lemma TextOrder()
    ensures TotalPreorder(TextLeq)
    ensures forall a, b :: TextLeq(a, b) && TextLeq(b, a) ==> a == b
  {
    forall a, b
      ensures TextLeq(a, b) || TextLeq(b, a)
    {
      LexTotal(CharCodes(a), CharCodes(b));
    }
    forall a, b, c | TextLeq(a, b) && TextLeq(b, c)
      ensures TextLeq(a, c)
    {
      LexTransitive(CharCodes(a), CharCodes(b), CharCodes(c));
    }
    forall a, b | TextLeq(a, b) && TextLeq(b, a)
      ensures a == b
    {
      LexAntisymmetric(CharCodes(a), CharCodes(b));
      assert |a| == |CharCodes(a)| == |b| && forall i :: 0 <= i < |a| ==> a[i] as int == CharCodes(a)[i] == b[i] as int;
    }
  }
}
