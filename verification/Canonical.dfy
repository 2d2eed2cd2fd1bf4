/**
 * The canonical encoding of a row's values: type-tagged, independent of how a value
 * is represented, and identifying what it means.
 */
module Canonical {
  import opened Prelude
  import opened Numerals
  import opened Rounding
  import DecimalText
  import opened Scalars
  import opened Sorting
  import opened Lexicographic
  import opened JsonText
  import Utf8

  datatype Value =
    | Null
    | Boolean(b: bool)
    | Enumerated(name: string)
    | Text(text: string)
    | Integer(i: int)
    | Number(d: Decimal)
    | NonFiniteDecimal
    | Floating(f: Float)
    | Time(m: Moment)
    | Blob(data: bytes)
    | Object(entries: seq<Entry>)
    | Array(isTuple: bool, items: seq<Value>)
    | Unsupported

  /** A dictionary entry; None is a key that is not a string. */
  datatype Entry = Entry(key: Option<string>, value: Value)

  /** What Python guarantees of its values: field ranges, and one entry per key. */
  predicate WellFormed(v: Value) {
    match v
    case Floating(f) => f.Valid()
    case Time(m) => m.Valid()
    case Object(entries) =>
      && (forall i, j :: 0 <= i < j < |entries| ==> entries[i].key != entries[j].key)
      && (forall i :: 0 <= i < |entries| ==> WellFormed(entries[i].value))
    case Array(_, items) => forall i :: 0 <= i < |items| ==> WellFormed(items[i])
    case _ => true
  }

  /** The values the encoding accepts; everything else raises. */
  predicate Accepted(v: Value) {
    match v
    case NonFiniteDecimal => false
    case Unsupported => false
    case Floating(f) => f.Finite()
    case Time(m) => m.InRange()
    case Object(entries) => forall i :: 0 <= i < |entries| ==> entries[i].key.Some? && Accepted(entries[i].value)
    case Array(_, items) => forall i :: 0 <= i < |items| ==> Accepted(items[i])
    case _ => true
  }

  datatype Kind = NullKind | BoolKind | EnumKind | StringKind | IntegerKind | DecimalKind | FloatKind | TimeKind | BytesKind | ObjectKind | ArrayKind

  function KindOf(v: Value): Kind {
    match v
    case Null => NullKind
    case Boolean(_) => BoolKind
    case Enumerated(_) => EnumKind
    case Text(_) => StringKind
    case Integer(_) => IntegerKind
    case Number(_) => DecimalKind
    case NonFiniteDecimal => DecimalKind
    case Floating(_) => FloatKind
    case Time(_) => TimeKind
    case Blob(_) => BytesKind
    case Object(_) => ObjectKind
    case Array(_, _) => ArrayKind
    case Unsupported => NullKind
  }

  function Tag(k: Kind): string {
    match k
    case NullKind => "null"
    case BoolKind => "bool"
    case EnumKind => "enum"
    case StringKind => "string"
    case IntegerKind => "integer"
    case DecimalKind => "decimal"
    case FloatKind => "float"
    case TimeKind => "datetime"
    case BytesKind => "bytes"
    case ObjectKind => "object"
    case ArrayKind => "array"
  }

  lemma TagInjective(a: Kind, b: Kind)
    ensures Tag(a) == Tag(b) <==> a == b
  {
    if Tag(a) == Tag(b) {
      assert Tag(a)[0] == Tag(b)[0] && Tag(a)[1] == Tag(b)[1];
    }
  }

  /** A string key with its encoded value. */
  datatype Pair = Pair(key: string, value: Json)

  predicate PairLeq(a: Pair, b: Pair) { TextLeq(a.key, b.key) }

  function PairJson(p: Pair): Json { JList([JText(p.key), p.value]) }

  function PairJsons(pairs: seq<Pair>): seq<Json> {
    if pairs == [] then [] else [PairJson(pairs[0])] + PairJsons(pairs[1..])
  }

  /** The tagged value, or None where the encoder raises. */
  function Encode(v: Value): (r: Option<Json>)
    decreases v, 1
  {
    match Body(v)
    case None => None
    case Some(body) => Some(JList([JText(Tag(KindOf(v)))] + body))
  }

  /** What follows the tag. */
  function Body(v: Value): Option<seq<Json>>
    decreases v, 0
  {
    match v
    case Null => Some([])
    case Boolean(b) => Some([JBool(b)])
    case Enumerated(name) => Some([JText(name)])
    case Text(text) => Some([JText(text)])
    case Integer(i) => Some([JText(IntText(i))])
    case Number(d) => Some([JText(DecimalText.Text(d))])
    case NonFiniteDecimal => None
    case Floating(f) => if f.Finite() then Some([JText(FloatText(f))]) else None
    case Time(m) => if m.InRange() then Some([JText(InstantText(m.Instant()))]) else None
    case Blob(data) => Some([JText(HexText(data))])
    case Object(entries) =>
      (match EncodeEntries(entries)
       case None => None
       case Some(pairs) => Some([JList(PairJsons(Sort(PairLeq, pairs)))]))
    case Array(_, items) =>
      (match EncodeItems(items)
       case None => None
       case Some(jsons) => Some([JList(jsons)]))
    case Unsupported => None
  }

  function EncodeItems(items: seq<Value>): (r: Option<seq<Json>>)
    ensures r.Some? <==> forall i :: 0 <= i < |items| ==> Encode(items[i]).Some?
    ensures r.Some? ==> |r.value| == |items| && forall i :: 0 <= i < |items| ==> Encode(items[i]) == Some(r.value[i])
    decreases items
  {
    if items == [] then Some([])
    else
      match (Encode(items[0]), EncodeItems(items[1..]))
      case (Some(j), Some(rest)) => Some([j] + rest)
      case _ => None
  }

  function EncodeEntry(entry: Entry): Option<Pair>
    decreases entry
  {
    match (entry.key, Encode(entry.value))
    case (Some(key), Some(j)) => Some(Pair(key, j))
    case _ => None
  }

  function EncodeEntries(entries: seq<Entry>): (r: Option<seq<Pair>>)
    ensures r.Some? <==> forall i :: 0 <= i < |entries| ==> EncodeEntry(entries[i]).Some?
    ensures r.Some? ==> |r.value| == |entries| && forall i :: 0 <= i < |entries| ==> EncodeEntry(entries[i]) == Some(r.value[i])
    decreases entries
  {
    if entries == [] then Some([])
    else
      match (EncodeEntry(entries[0]), EncodeEntries(entries[1..]))
      case (Some(pair), Some(rest)) => Some([pair] + rest)
      case _ => None
  }

  /** The encoder raises on exactly the values that are not accepted. */
  lemma {:induction false} EncodesAccepted(v: Value)
    ensures Encode(v).Some? <==> Accepted(v)
    decreases v
  {
    match v
    case Object(entries) =>
      forall i | 0 <= i < |entries|
        ensures Encode(entries[i].value).Some? <==> Accepted(entries[i].value)
      {
        EncodesAccepted(entries[i].value);
      }
    case Array(_, items) =>
      forall i | 0 <= i < |items|
        ensures Encode(items[i]).Some? <==> Accepted(items[i])
      {
        EncodesAccepted(items[i]);
      }
    case _ =>
  }

  /**
   * Values that mean the same: numbers numerically (to 28 digits), zeros of either sign,
   * instants in UTC, dictionaries whatever the order of their keys, lists and tuples.
   */
  predicate Equivalent(a: Value, b: Value)
    decreases a
  {
    match (a, b)
    case (Null, Null) => true
    case (Boolean(x), Boolean(y)) => x == y
    case (Enumerated(x), Enumerated(y)) => x == y
    case (Text(x), Text(y)) => x == y
    case (Integer(x), Integer(y)) => x == y
    case (Number(x), Number(y)) => DecimalText.SameDecimal(x, y)
    case (Floating(x), Floating(y)) => SameFloat(x, y)
    case (Time(x), Time(y)) => x.Instant() == y.Instant()
    case (Blob(x), Blob(y)) => x == y
    case (Object(x), Object(y)) =>
      |x| == |y| && forall i :: 0 <= i < |x| ==> HasEqual(x[i], y)
    case (Array(_, x), Array(_, y)) =>
      |x| == |y| && forall i :: 0 <= i < |x| ==> Equivalent(x[i], y[i])
    case _ => false
  }

  predicate HasEqual(e: Entry, entries: seq<Entry>)
    decreases e, 1
  {
    exists j :: 0 <= j < |entries| && SameEntry(e, entries[j])
  }

  predicate SameEntry(e: Entry, f: Entry)
    decreases e, 0
  {
    e.key == f.key && Equivalent(e.value, f.value)
  }

  // ----- Encodings agree exactly on equivalent values -----

  lemma EncodeParts(a: Value, b: Value)
    requires Encode(a).Some? && Encode(b).Some?
    ensures Encode(a) == Encode(b) <==> KindOf(a) == KindOf(b) && Body(a) == Body(b)
  {
    TagInjective(KindOf(a), KindOf(b));
    var x, y := Encode(a).value.items, Encode(b).value.items;
    assert x[0] == JText(Tag(KindOf(a))) && y[0] == JText(Tag(KindOf(b)));
    assert x[1..] == Body(a).value && y[1..] == Body(b).value;
  }

  lemma {:induction false} PairJsonsAt(pairs: seq<Pair>)
    ensures |PairJsons(pairs)| == |pairs|
    ensures forall i :: 0 <= i < |pairs| ==> PairJsons(pairs)[i] == PairJson(pairs[i])
  {
    if pairs != [] {
      PairJsonsAt(pairs[1..]);
    }
  }

  lemma PairJsonsInjective(a: seq<Pair>, b: seq<Pair>)
    ensures PairJsons(a) == PairJsons(b) <==> a == b
  {
    PairJsonsAt(a);
    PairJsonsAt(b);
    if PairJsons(a) == PairJsons(b) {
      forall i | 0 <= i < |a|
        ensures a[i] == b[i]
      {
        assert PairJson(a[i]).items[0] == PairJson(b[i]).items[0] && PairJson(a[i]).items[1] == PairJson(b[i]).items[1];
      }
    }
  }

  predicate DistinctKeys(pairs: seq<Pair>) { forall i, j :: 0 <= i < j < |pairs| ==> pairs[i].key != pairs[j].key }

  lemma PairOrder(pairs: seq<Pair>)
    requires DistinctKeys(pairs)
    ensures TotalPreorder(PairLeq) && AntisymmetricOn(PairLeq, pairs)
  {
    TextOrder();
  }

  predicate Distinct<T(==)>(s: seq<T>) { forall i, j :: 0 <= i < j < |s| ==> s[i] != s[j] }

  lemma {:induction false} DistinctOnce<T>(s: seq<T>, x: T)
    requires Distinct(s)
    ensures multiset(s)[x] <= 1
  {
    if s != [] {
      DistinctOnce(s[1..], x);
      assert s == [s[0]] + s[1..];
      assert s[0] !in s[1..];
    }
  }

  lemma SameSize<T>(a: multiset<T>, b: multiset<T>)
    requires a <= b && |a| == |b|
    ensures a == b
  {
    assert b == a + (b - a);
    assert |b - a| == 0;
    assert b - a == multiset{};
  }

  /** Lists without repetition hold the same elements when they are as long and one's are among the other's. */
  lemma DistinctMultisets<T>(a: seq<T>, b: seq<T>)
    requires Distinct(a) && Distinct(b)
    ensures multiset(a) == multiset(b) <==> |a| == |b| && forall i :: 0 <= i < |a| ==> a[i] in b
  {
    if multiset(a) == multiset(b) {
      assert |a| == |multiset(a)| == |multiset(b)| == |b|;
      Members(a, b);
    } else if |a| == |b| && forall i :: 0 <= i < |a| ==> a[i] in b {
      forall x
        ensures multiset(a)[x] <= multiset(b)[x]
      {
        DistinctOnce(a, x);
        if x in multiset(a) {
          assert x in a && x in b && x in multiset(b);
        }
      }
      SameSize(multiset(a), multiset(b));
    }
  }

  /** Two dictionaries encode alike exactly when each entry of one has an equal entry in the other. */
  lemma ObjectsAgree(a: seq<Pair>, b: seq<Pair>)
    requires DistinctKeys(a) && DistinctKeys(b)
    ensures PairJsons(Sort(PairLeq, a)) == PairJsons(Sort(PairLeq, b)) <==>
            |a| == |b| && forall i :: 0 <= i < |a| ==> a[i] in b
  {
    PairOrder(a);
    SortCanonical(PairLeq, a, b);
    PairJsonsInjective(Sort(PairLeq, a), Sort(PairLeq, b));
    DistinctMultisets(a, b);
  }

  /** Two accepted values have the same encoding exactly when they are equivalent. */
  lemma {:induction false} EncodeIff(a: Value, b: Value)
    requires WellFormed(a) && WellFormed(b) && Accepted(a) && Accepted(b)
    ensures Encode(a).Some? && Encode(b).Some?
    ensures Encode(a) == Encode(b) <==> Equivalent(a, b)
    decreases a
  {
    EncodesAccepted(a);
    EncodesAccepted(b);
    EncodeParts(a, b);
    if KindOf(a) == KindOf(b) {
      match a
      case Object(_) => ObjectIff(a, b);
      case Array(_, _) => ArrayIff(a, b);
      case _ => ScalarIff(a, b);
    } else {
      KindsDiffer(a, b);
    }
  }

  lemma KindsDiffer(a: Value, b: Value)
    requires KindOf(a) != KindOf(b)
    ensures !Equivalent(a, b)
  {
  }

  lemma TextBodies(s: string, t: string)
    ensures [JText(s)] == [JText(t)] <==> s == t
  {
    if [JText(s)] == [JText(t)] {
      assert [JText(s)][0] == [JText(t)][0];
    }
  }

  lemma ScalarIff(a: Value, b: Value)
    requires WellFormed(a) && WellFormed(b) && Accepted(a) && Accepted(b)
    requires KindOf(a) == KindOf(b) && !a.Object? && !a.Array?
    ensures Body(a) == Body(b) <==> Equivalent(a, b)
  {
    match a
    case Null =>
    case Boolean(x) =>
      assert [JBool(x)] == [JBool(b.b)] <==> [JBool(x)][0] == [JBool(b.b)][0];
    case Enumerated(x) => TextBodies(x, b.name);
    case Text(x) => TextBodies(x, b.text);
    case Integer(x) =>
      IntRoundTrip(x);
      IntRoundTrip(b.i);
      TextBodies(IntText(x), IntText(b.i));
    case Number(x) =>
      DecimalText.TextIff(x, b.d);
      TextBodies(DecimalText.Text(x), DecimalText.Text(b.d));
    case Floating(x) =>
      FloatTextIff(x, b.f);
      TextBodies(FloatText(x), FloatText(b.f));
    case Time(x) => TimeIff(x, b.m);
    case Blob(x) => BlobIff(x, b.data);
  }

  lemma BlobIff(x: bytes, y: bytes)
    ensures Body(Blob(x)) == Body(Blob(y)) <==> x == y
  {
    TextBodies(HexText(x), HexText(y));
    if HexText(x) == HexText(y) {
      HexTextInjective(x, y);
    }
  }

  lemma TimeIff(x: Moment, y: Moment)
    requires x.InRange() && y.InRange()
    ensures Body(Time(x)) == Body(Time(y)) <==> x.Instant() == y.Instant()
  {
    TextBodies(InstantText(x.Instant()), InstantText(y.Instant()));
    if InstantText(x.Instant()) == InstantText(y.Instant()) {
      InstantInjective(x.Instant(), y.Instant());
    }
  }

  lemma {:induction false} ArrayIff(a: Value, b: Value)
    requires a.Array? && b.Array? && WellFormed(a) && WellFormed(b) && Accepted(a) && Accepted(b)
    ensures Body(a) == Body(b) <==> Equivalent(a, b)
    decreases a, 0
  {
    EncodesAccepted(a);
    EncodesAccepted(b);
    var x, y := EncodeItems(a.items).value, EncodeItems(b.items).value;
    assert Body(a) == Body(b) <==> x == y by {
      if Body(a) == Body(b) {
        assert [JList(x)][0] == [JList(y)][0];
      }
    }
    if |x| == |y| {
      forall i | 0 <= i < |x|
        ensures x[i] == y[i] <==> Equivalent(a.items[i], b.items[i])
      {
        EncodeIff(a.items[i], b.items[i]);
      }
    }
  }

  /** The body of an accepted dictionary. */
  lemma ObjectBody(a: Value) returns (pairs: seq<Pair>)
    requires a.Object? && WellFormed(a) && Accepted(a)
    ensures EncodeEntries(a.entries) == Some(pairs) && |pairs| == |a.entries| && DistinctKeys(pairs)
    ensures Body(a) == Some([JList(PairJsons(Sort(PairLeq, pairs)))])
    ensures forall i :: 0 <= i < |pairs| ==> EncodeEntry(a.entries[i]) == Some(pairs[i])
  {
    EncodesAccepted(a);
    pairs := EncodeEntries(a.entries).value;
  }

  lemma ListBodies(x: seq<Json>, y: seq<Json>)
    ensures Some([JList(x)]) == Some([JList(y)]) <==> x == y
  {
    if [JList(x)] == [JList(y)] {
      assert [JList(x)][0] == [JList(y)][0];
    }
  }

  lemma {:induction false} EntryIff(e: Entry, f: Entry)
    requires WellFormed(e.value) && WellFormed(f.value) && Accepted(e.value) && Accepted(f.value)
    requires e.key.Some? && f.key.Some?
    ensures EncodeEntry(e) == EncodeEntry(f) <==> SameEntry(e, f)
    decreases e, 2
  {
    EncodeIff(e.value, f.value);
  }

  lemma {:induction false} ObjectIff(a: Value, b: Value)
    requires a.Object? && b.Object? && WellFormed(a) && WellFormed(b) && Accepted(a) && Accepted(b)
    ensures Body(a) == Body(b) <==> Equivalent(a, b)
    decreases a, 0
  {
    var x := ObjectBody(a);
    var y := ObjectBody(b);
    ListBodies(PairJsons(Sort(PairLeq, x)), PairJsons(Sort(PairLeq, y)));
    ObjectsAgree(x, y);
    forall i, j | 0 <= i < |x| && 0 <= j < |y|
      ensures x[i] == y[j] <==> SameEntry(a.entries[i], b.entries[j])
    {
      EntryIff(a.entries[i], b.entries[j]);
    }
    EntriesMatch(a, b, x, y);
  }

  lemma EntriesMatch(a: Value, b: Value, x: seq<Pair>, y: seq<Pair>)
    requires a.Object? && b.Object? && |x| == |a.entries| && |y| == |b.entries|
    requires forall i, j :: 0 <= i < |x| && 0 <= j < |y| ==>
               (x[i] == y[j] <==> SameEntry(a.entries[i], b.entries[j]))
    ensures Equivalent(a, b) <==> |x| == |y| && forall i :: 0 <= i < |x| ==> x[i] in y
  {
    forall i | 0 <= i < |x|
      ensures x[i] in y <==> HasEqual(a.entries[i], b.entries)
    {
      if x[i] in y {
        var j :| 0 <= j < |y| && y[j] == x[i];
        assert SameEntry(a.entries[i], b.entries[j]);
      }
      if HasEqual(a.entries[i], b.entries) {
        var j :| 0 <= j < |y| && SameEntry(a.entries[i], b.entries[j]);
        assert y[j] == x[i];
      }
    }
  }

  /** The payload bytes of a value, or None where the encoder raises. */
  function Payload(v: Value): Option<bytes> {
    match Encode(v)
    case None => None
    case Some(j) => Some(Utf8.Encode(Print(j)))
  }

  /** Down to the bytes: two accepted values have equal payloads exactly when they are equivalent. */
  lemma PayloadIff(a: Value, b: Value)
    requires WellFormed(a) && WellFormed(b) && Accepted(a) && Accepted(b)
    ensures Payload(a).Some? && Payload(b).Some?
    ensures Payload(a) == Payload(b) <==> Equivalent(a, b)
  {
    EncodeIff(a, b);
    PrintInjective(Encode(a).value, Encode(b).value);
    Utf8.EncodeInjective(Print(Encode(a).value), Print(Encode(b).value));
  }
}
