/**
 * The interpolated percentile of a sample, over exact reals: the formula both
 * measurement scripts use.
 */
module Percentile {
  import opened Prelude
  import opened Sorting

  predicate Leq(a: real, b: real) { a <= b }

  lemma RealOrder()
    ensures TotalPreorder(Leq)
    ensures forall s: seq<real> :: AntisymmetricOn(Leq, s)
  {
  }

  /** `int(position)` of a non-negative number, and what is left. */
  function Whole(x: real): (n: nat)
    requires x >= 0.0
    ensures n as real <= x < n as real + 1.0
  {
    x.Floor
  }

  /** From a towards b by a fraction. */
  function Blend(a: real, b: real, fraction: real): real { a + (b - a) * fraction }

  lemma BlendBetween(a: real, b: real, f: real)
    requires a <= b && 0.0 <= f <= 1.0
    ensures a <= Blend(a, b, f) <= b
  {
    Product(b - a, f);
    Product(b - a, 1.0 - f);
    Distribute(b - a, 1.0, f);
  }

  lemma BlendInFraction(a: real, b: real, f: real, g: real)
    requires a <= b && f <= g
    ensures Blend(a, b, f) <= Blend(a, b, g)
  {
    Product(b - a, g - f);
    Distribute(b - a, g, f);
  }

  lemma BlendInEnds(a: real, b: real, c: real, d: real, f: real)
    requires a <= c && b <= d && 0.0 <= f <= 1.0
    ensures Blend(a, b, f) <= Blend(c, d, f)
  {
    Product(1.0 - f, c - a);
    Product(f, d - b);
    Distribute(c - a, 1.0, f);
    Spread(b, a, f);
    Spread(d, c, f);
    Spread(d, b, f);
    Spread(c, a, f);
    assert (1.0 - f) * (c - a) == (c - a) * (1.0 - f);
  }

  lemma Product(x: real, y: real)
    requires x >= 0.0 && y >= 0.0
    ensures x * y >= 0.0
  {
  }

  lemma Distribute(x: real, y: real, z: real)
    ensures x * (y - z) == x * y - x * z
  {
  }

  lemma Spread(x: real, y: real, z: real)
    ensures (x - y) * z == x * z - y * z && x * z == z * x && y * z == z * y
    ensures z * (x - y) == z * x - z * y
  {
  }

  lemma BlendEnds(a: real, b: real, f: real)
    ensures Blend(a, a, f) == a && Blend(a, b, 0.0) == a
  {
  }

  /** The value at a position of an ordered sample: between neighbours, in proportion. */
  function Interpolate(ordered: seq<real>, position: real): real
    requires ordered != [] && 0.0 <= position <= (|ordered| - 1) as real
  {
    var lower := Whole(position);
    var upper := if lower + 1 <= |ordered| - 1 then lower + 1 else |ordered| - 1;
    Blend(ordered[lower], ordered[upper], position - lower as real)
  }

  function Position(n: nat, percentage: real): (x: real)
    requires n > 0 && 0.0 <= percentage <= 100.0
    ensures 0.0 <= x <= (n - 1) as real
  {
    InRange((n - 1) as real, percentage);
    (n - 1) as real * percentage / 100.0
  }

  lemma InRange(m: real, percentage: real)
    requires m >= 0.0 && 0.0 <= percentage <= 100.0
    ensures 0.0 <= m * percentage / 100.0 <= m
  {
    assert m * percentage <= m * 100.0;
  }

  /** The percentile, or None where the scripts refuse the sample or the percentage. */
  function Percentile(values: seq<real>, percentage: real): Option<real> {
    if values == [] || !(0.0 <= percentage <= 100.0) then None
    else
      var ordered := Sort(Leq, values);
      if |ordered| == 1 then Some(ordered[0])
      else Some(Interpolate(ordered, Position(|ordered|, percentage)))
  }

  /** The order in which observations were taken never matters. */
  lemma OrderInvariant(a: seq<real>, b: seq<real>, percentage: real)
    requires multiset(a) == multiset(b)
    ensures Percentile(a, percentage) == Percentile(b, percentage)
  {
    RealOrder();
    SortCanonical(Leq, a, b);
    assert |a| == |multiset(a)| == |multiset(b)| == |b|;
  }

  /** On an ordered sample the interpolated value lies between its two neighbours. */
  lemma BetweenNeighbours(ordered: seq<real>, position: real)
    requires ordered != [] && 0.0 <= position <= (|ordered| - 1) as real && Sorted(Leq, ordered)
    ensures var lower := Whole(position);
            ordered[lower] <= Interpolate(ordered, position)
    ensures var lower := Whole(position);
            lower + 1 < |ordered| ==> Interpolate(ordered, position) <= ordered[lower + 1]
    ensures Interpolate(ordered, position) <= ordered[|ordered| - 1]
  {
    var lower := Whole(position);
    var fraction := position - lower as real;
    if lower + 1 < |ordered| {
      assert Leq(ordered[lower], ordered[lower + 1]);
      BlendBetween(ordered[lower], ordered[lower + 1], fraction);
      assert lower + 1 == |ordered| - 1 || Leq(ordered[lower + 1], ordered[|ordered| - 1]);
    } else {
      BlendEnds(ordered[lower], ordered[lower], fraction);
    }
  }

  /** A larger position never gives a smaller value, within one interval or across several. */
  lemma InterpolateMonotone(ordered: seq<real>, p: real, q: real)
    requires ordered != [] && 0.0 <= p <= q <= (|ordered| - 1) as real && Sorted(Leq, ordered)
    ensures Interpolate(ordered, p) <= Interpolate(ordered, q)
  {
    var i, j := Whole(p), Whole(q);
    if i == j {
      if i + 1 < |ordered| {
        assert Leq(ordered[i], ordered[i + 1]);
        BlendInFraction(ordered[i], ordered[i + 1], p - i as real, q - i as real);
      } else {
        BlendInFraction(ordered[i], ordered[i], p - i as real, q - i as real);
      }
    } else {
      assert i < j;
      BetweenNeighbours(ordered, p);
      BetweenNeighbours(ordered, q);
      assert i + 1 == j || Leq(ordered[i + 1], ordered[j]);
    }
  }

  lemma PositionMonotone(n: nat, p: real, q: real)
    requires n > 0 && 0.0 <= p <= q <= 100.0
    ensures Position(n, p) <= Position(n, q)
  {
    Product((n - 1) as real, q - p);
    Distribute((n - 1) as real, q, p);
  }

  /** Monotone in the percentage. */
  lemma MonotoneInPercentage(values: seq<real>, p: real, q: real)
    requires values != [] && 0.0 <= p <= q <= 100.0
    ensures Percentile(values, p).Some? && Percentile(values, q).Some?
    ensures Percentile(values, p).value <= Percentile(values, q).value
  {
    RealOrder();
    SortSorted(Leq, values);
    PositionMonotone(|values|, p, q);
    if |values| > 1 {
      InterpolateMonotone(Sort(Leq, values), Position(|values|, p), Position(|values|, q));
    }
  }

  /** Between the least and the greatest observation. */
  lemma WithinRange(values: seq<real>, percentage: real, low: real, high: real)
    requires values != [] && 0.0 <= percentage <= 100.0
    requires forall v :: v in values ==> low <= v <= high
    ensures Percentile(values, percentage).Some? && low <= Percentile(values, percentage).value <= high
  {
    var ordered := Sort(Leq, values);
    RealOrder();
    SortSorted(Leq, values);
    Members(ordered, values);
    assert forall i :: 0 <= i < |ordered| ==> ordered[i] in values;
    if |ordered| > 1 {
      BetweenNeighbours(ordered, Position(|ordered|, percentage));
    }
  }

  /** The percentage whose position in a sample of n is exactly k. */
  predicate OnGrid(n: nat, percentage: real, k: nat) { (n as real - 1.0) * percentage == 100.0 * k as real }

  /** At a grid position the percentile is an observation: the k-th smallest, counting from zero. */
  lemma HitsOrderStatistic(values: seq<real>, k: nat, percentage: real)
    requires k < |values| && 0.0 <= percentage <= 100.0
    requires OnGrid(|values|, percentage, k)
    ensures Percentile(values, percentage) == Some(Sort(Leq, values)[k])
  {
    var ordered := Sort(Leq, values);
    if |ordered| > 1 {
      GridPosition(|ordered|, percentage, k);
      AtGrid(ordered, k);
    }
  }

  /** The point a fraction t of the way from one order statistic to the next. */
  function Mixed(ordered: seq<real>, k: nat, t: real): real
    requires k + 1 < |ordered|
  {
    (1.0 - t) * ordered[k] + t * ordered[k + 1]
  }

  /**
   * Between two neighbouring grid positions the percentile moves in a straight line
   * from one order statistic to the next.
   */
  lemma LinearBetweenGrid(values: seq<real>, ordered: seq<real>, k: nat, p: real, q: real, t: real, x: real)
    requires k + 1 < |values| && 0.0 <= p <= 100.0 && 0.0 <= q <= 100.0 && 0.0 <= t <= 1.0
    requires OnGrid(|values|, p, k) && OnGrid(|values|, q, k + 1)
    requires ordered == Sort(Leq, values) && x == p + t * (q - p)
    ensures Reads(values, x, Mixed(ordered, k, t))
  {
    var position := GridFraction(|values|, k, p, q, t, x);
    LinearAt(values, ordered, k, x, position, t);
  }

  /** The value of a sample at a percentage. */
  predicate Reads(values: seq<real>, percentage: real, value: real) { Percentile(values, percentage) == Some(value) }

  lemma GridFraction(n: nat, k: nat, p: real, q: real, t: real, x: real) returns (position: real)
    requires n > 1 && 0.0 <= p <= 100.0 && 0.0 <= q <= 100.0 && 0.0 <= t <= 1.0 && x == p + t * (q - p)
    requires OnGrid(n, p, k) && OnGrid(n, q, k + 1)
    ensures 0.0 <= x <= 100.0 && Position(n, x) == position == k as real + t
  {
    GridOrder(n, k, p, q);
    BetweenGrid(n, k, p, q, t);
    position := k as real + t;
  }

  lemma LinearAt(values: seq<real>, ordered: seq<real>, k: nat, percentage: real, position: real, t: real)
    requires k + 1 < |values| && 0.0 <= percentage <= 100.0 && 0.0 <= t <= 1.0
    requires ordered == Sort(Leq, values) && Position(|values|, percentage) == position == k as real + t
    ensures Reads(values, percentage, Mixed(ordered, k, t))
  {
    var value := LinearFrom(ordered, k, position, t);
    ReadsPosition(values, ordered, percentage, position, value);
  }

  lemma ReadsPosition(values: seq<real>, ordered: seq<real>, percentage: real, position: real, value: real)
    requires |values| > 1 && 0.0 <= percentage <= 100.0 && Position(|values|, percentage) == position
    requires ordered == Sort(Leq, values) && Interpolate(ordered, position) == value
    ensures Reads(values, percentage, value)
  {
  }

  lemma LinearFrom(ordered: seq<real>, k: nat, position: real, t: real) returns (value: real)
    requires k + 1 < |ordered| && 0.0 <= t <= 1.0 && position == k as real + t
    ensures value == Mixed(ordered, k, t) && Interpolate(ordered, position) == value
  {
    value := Mixed(ordered, k, t);
    if t == 1.0 {
      AtGrid(ordered, k + 1);
      assert position == (k + 1) as real;
    } else {
      assert Whole(position) == k;
      Mixture(ordered[k], ordered[k + 1], t);
    }
  }

  lemma GridOrder(n: nat, k: nat, p: real, q: real)
    requires n > 1 && OnGrid(n, p, k) && OnGrid(n, q, k + 1)
    ensures p <= q
  {
    Distribute(n as real - 1.0, q, p);
    if q < p {
      Product(n as real - 1.0, p - q);
      Distribute(n as real - 1.0, p, q);
    }
  }

  /** The percentage a fraction of the way between two grid positions is that fraction past the first. */
  lemma BetweenGrid(n: nat, k: nat, p: real, q: real, t: real)
    requires n > 1 && 0.0 <= p <= q <= 100.0 && 0.0 <= t <= 1.0
    requires OnGrid(n, p, k) && OnGrid(n, q, k + 1)
    ensures 0.0 <= p + t * (q - p) <= 100.0 && Position(n, p + t * (q - p)) == k as real + t
  {
    var m := n as real - 1.0;
    Product(t, q - p);
    Product(1.0 - t, q - p);
    Spread(1.0, t, q - p);
    Distribute(m, q, p);
    assert m * (q - p) == 100.0;
    assert m * (p + t * (q - p)) == m * p + t * (m * (q - p));
  }

  lemma Mixture(a: real, b: real, t: real)
    ensures Blend(a, b, t) == (1.0 - t) * a + t * b
  {
  }

  /** Refused exactly without observations or outside 0 to 100. */
  lemma RefusedIff(values: seq<real>, percentage: real)
    ensures Percentile(values, percentage) == None <==> values == [] || percentage < 0.0 || percentage > 100.0
  {
  }

  lemma GridPosition(n: nat, percentage: real, k: nat)
    requires n > 0 && 0.0 <= percentage <= 100.0 && OnGrid(n, percentage, k)
    ensures Position(n, percentage) == k as real
  {
  }

  lemma AtGrid(ordered: seq<real>, k: nat)
    requires k < |ordered|
    ensures Interpolate(ordered, k as real) == ordered[k]
  {
    assert Whole(k as real) == k;
    var upper := if k + 1 <= |ordered| - 1 then k + 1 else |ordered| - 1;
    BlendEnds(ordered[k], ordered[upper], 0.0);
  }

  // ----- Monotone in each sample point -----

  /** Observation by observation, the first sample is below the second. */
  predicate Below(a: seq<real>, b: seq<real>) {
    |a| == |b| && (a == [] || (a[0] <= b[0] && Below(a[1..], b[1..])))
  }

  lemma {:induction false} BelowPointwise(a: seq<real>, b: seq<real>)
    ensures Below(a, b) <==> |a| == |b| && forall i :: 0 <= i < |a| ==> a[i] <= b[i]
  {
    if |a| == |b| && a != [] {
      BelowPointwise(a[1..], b[1..]);
      var s, t := a[1..], b[1..];
      assert (forall i :: 0 <= i < |s| ==> s[i] <= t[i]) <==> (forall i :: 1 <= i < |a| ==> a[i] <= b[i]) by {
        assert forall i :: 1 <= i < |a| ==> a[i] == s[i - 1] && b[i] == t[i - 1];
      }
    }
  }

  lemma BelowAt(a: seq<real>, b: seq<real>, i: nat)
    requires Below(a, b) && i < |a|
    ensures a[i] <= b[i]
  {
    BelowPointwise(a, b);
  }

  lemma BelowCons(x: real, y: real, a: seq<real>, b: seq<real>)
    requires x <= y && Below(a, b)
    ensures Below([x] + a, [y] + b)
  {
    assert ([x] + a)[1..] == a && ([y] + b)[1..] == b;
  }

  lemma SortedTail(s: seq<real>)
    requires s != [] && Sorted(Leq, s)
    ensures Sorted(Leq, s[1..]) && (s[1..] == [] || s[0] <= s[1..][0])
  {
    assert |s| > 1 ==> Leq(s[0], s[1]);
  }

  lemma InsertLeast(x: real, s: seq<real>)
    requires s == [] || x <= s[0]
    ensures Insert(Leq, x, s) == [x] + s
  {
  }

  lemma InsertLater(x: real, s: seq<real>)
    requires s != [] && !(x <= s[0])
    ensures Insert(Leq, x, s) == [s[0]] + Insert(Leq, x, s[1..])
  {
  }

  lemma {:induction false} InsertBelow(x: real, y: real, a: seq<real>, b: seq<real>)
    requires x <= y && Below(a, b) && Sorted(Leq, a) && Sorted(Leq, b)
    ensures Below(Insert(Leq, x, a), Insert(Leq, y, b))
    decreases |a|
  {
    if a == [] || (x <= a[0] && y <= b[0]) {
      InsertLeast(x, a);
      InsertLeast(y, b);
      BelowCons(x, y, a, b);
    } else {
      SortedTail(a);
      SortedTail(b);
      var s, t := a[1..], b[1..];
      if x <= a[0] {
        InsertLeast(x, a);
        InsertLater(y, b);
        InsertBelow(a[0], y, s, t);
        InsertLeast(a[0], s);
        assert a == [a[0]] + s;
        BelowCons(x, b[0], a, Insert(Leq, y, t));
      } else if y <= b[0] {
        InsertLater(x, a);
        InsertLeast(y, b);
        InsertBelow(x, b[0], s, t);
        InsertLeast(b[0], t);
        assert b == [b[0]] + t;
        BelowCons(a[0], y, Insert(Leq, x, s), b);
      } else {
        InsertLater(x, a);
        InsertLater(y, b);
        InsertBelow(x, y, s, t);
        BelowCons(a[0], b[0], Insert(Leq, x, s), Insert(Leq, y, t));
      }
    }
  }

  /** Raising observations raises every order statistic. */
  lemma {:induction false} SortBelow(a: seq<real>, b: seq<real>)
    requires Below(a, b)
    ensures Below(Sort(Leq, a), Sort(Leq, b))
  {
    if a != [] {
      RealOrder();
      SortSorted(Leq, a[1..]);
      SortSorted(Leq, b[1..]);
      SortBelow(a[1..], b[1..]);
      InsertBelow(a[0], b[0], Sort(Leq, a[1..]), Sort(Leq, b[1..]));
    }
  }

  /** Monotone in every observation. */
  lemma MonotoneInSamples(a: seq<real>, b: seq<real>, percentage: real)
    requires a != [] && Below(a, b) && 0.0 <= percentage <= 100.0
    ensures Percentile(a, percentage).Some? && Percentile(b, percentage).Some?
    ensures Percentile(a, percentage).value <= Percentile(b, percentage).value
  {
    SortBelow(a, b);
    var s, t := Sort(Leq, a), Sort(Leq, b);
    if |a| > 1 {
      InterpolateBelow(s, t, Position(|a|, percentage));
    }
  }

  lemma InterpolateBelow(s: seq<real>, t: seq<real>, position: real)
    requires s != [] && Below(s, t) && 0.0 <= position <= (|s| - 1) as real
    ensures Interpolate(s, position) <= Interpolate(t, position)
  {
    var lower := Whole(position);
    var upper := if lower + 1 <= |s| - 1 then lower + 1 else |s| - 1;
    BelowAt(s, t, lower);
    BelowAt(s, t, upper);
    BlendInEnds(s[lower], s[upper], t[lower], t[upper], position - lower as real);
  }
}
