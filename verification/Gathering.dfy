/** Collecting the results of fallible steps, and which elements are collected. */
module Gathering {
  import opened Prelude
  import Sorting

  /** All the values, or None when one is missing. */
  function Gather<T>(options: seq<Option<T>>): (r: Option<seq<T>>)
    ensures r.Some? <==> forall i :: 0 <= i < |options| ==> options[i].Some?
    ensures r.Some? ==> |r.value| == |options| && forall i :: 0 <= i < |options| ==> options[i] == Some(r.value[i])
  {
    if options == [] then Some([])
    else
      match (options[0], Gather(options[1..]))
      case (Some(x), Some(rest)) => Some([x] + rest)
      case _ => None
  }

  lemma GatherIs<T>(options: seq<Option<T>>, values: seq<T>)
    requires |options| == |values| && forall i :: 0 <= i < |options| ==> options[i] == Some(values[i])
    ensures Gather(options) == Some(values)
  {
    var r := Gather(options);
    assert r.Some?;
    forall i | 0 <= i < |values|
      ensures r.value[i] == values[i]
    {
      assert Some(r.value[i]) == options[i] == Some(values[i]);
    }
    assert r.value == values;
  }

  /** Values gathered from the first i + 1 steps. */
  lemma GatherSnoc<T>(options: seq<Option<T>>, i: nat, gathered: seq<T>)
    requires i < |options| && Gather(options[..i]) == Some(gathered) && options[i].Some?
    ensures Gather(options[..i+1]) == Some(gathered + [options[i].value])
  {
    var next, values := options[..i+1], gathered + [options[i].value];
    forall k | 0 <= k < |next|
      ensures next[k] == Some(values[k])
    {
      assert k < i ==> next[k] == options[..i][k];
    }
    GatherIs(next, values);
  }

  lemma GatherNone<T>(options: seq<Option<T>>, i: nat)
    requires i < |options| && options[i] == None
    ensures Gather(options) == None
  {
  }

  lemma RemoveOne<T>(s: seq<T>, i: nat)
    requires i < |s|
    ensures multiset(s) == multiset{s[i]} + multiset(s[..i] + s[i+1..])
  {
    assert s == s[..i] + [s[i]] + s[i+1..];
  }

  lemma SumsAgree<T>(one: multiset<T>, x: multiset<T>, y: multiset<T>)
    ensures one + x == one + y <==> x == y
  {
    if one + x == one + y {
      forall e
        ensures x[e] == y[e]
      {
        assert (one + x)[e] == (one + y)[e];
      }
    }
  }

  lemma RemoveSame<T>(a: seq<T>, b: seq<T>, i: nat)
    requires a != [] && i < |b| && a[0] == b[i]
    ensures multiset(a) == multiset(b) <==> multiset(a[1..]) == multiset(b[..i] + b[i+1..])
  {
    RemoveOne(a, 0);
    RemoveOne(b, i);
    assert a[..0] + a[1..] == a[1..];
    SumsAgree(multiset{a[0]}, multiset(a[1..]), multiset(b[..i] + b[i+1..]));
  }

  lemma Find<T>(a: seq<T>, b: seq<T>) returns (i: nat)
    requires a != [] && multiset(a) == multiset(b)
    ensures i < |b| && b[i] == a[0] && multiset(a[1..]) == multiset(b[..i] + b[i+1..])
  {
    Sorting.Members(a, b);
    assert a[0] in b;
    i :| 0 <= i < |b| && b[i] == a[0];
    RemoveSame(a, b, i);
  }

  /** x and y assign equal values to equal elements of a and b. */
  predicate Assigns<A(==), B(==)>(a: seq<A>, b: seq<A>, x: seq<B>, y: seq<B>) {
    |a| == |x| && |b| == |y| && forall i, j :: 0 <= i < |a| && 0 <= j < |b| && a[i] == b[j] ==> x[i] == y[j]
  }

  /** Equal elements given equal values: the same elements in another order have the same values in another order. */
  lemma {:induction false} SameBags<A, B>(a: seq<A>, b: seq<A>, x: seq<B>, y: seq<B>)
    requires Assigns(a, b, x, y) && multiset(a) == multiset(b)
    ensures multiset(x) == multiset(y)
    decreases |a|
  {
    assert |a| == |multiset(a)| == |multiset(b)| == |b|;
    if a != [] {
      var i := Find(a, b);
      var bRest, yRest := b[..i] + b[i+1..], y[..i] + y[i+1..];
      assert forall k :: 0 <= k < |bRest| ==> bRest[k] == b[if k < i then k else k + 1] && yRest[k] == y[if k < i then k else k + 1];
      SameBags(a[1..], bRest, x[1..], yRest);
      RemoveSame(x, y, i);
    }
  }

  lemma SameMultiplicities<T>(x: seq<T>, y: seq<T>)
    requires forall i :: 0 <= i < |x| ==> multiset(x)[x[i]] == multiset(y)[x[i]]
    requires forall i :: 0 <= i < |y| ==> multiset(x)[y[i]] == multiset(y)[y[i]]
    ensures multiset(x) == multiset(y)
  {
    forall p
      ensures multiset(x)[p] == multiset(y)[p]
    {
      assert p in multiset(x) <==> p in x;
      assert p in multiset(y) <==> p in y;
    }
  }
}
