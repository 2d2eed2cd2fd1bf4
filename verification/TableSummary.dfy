/**
 * The summary of a table: its row count and the two hashed streams, over all rows and
 * over their primary keys.
 */
module TableSummary {
  import opened Prelude
  import opened Canonical
  import opened Gathering
  import Digest
  import Sorting

  type Row = map<string, Value>

  datatype Table = Table(columns: seq<string>, keyColumns: seq<string>)

  datatype Summary = Summary(rowCount: nat, keyStream: bytes, rowStream: bytes)

  /** The (name, value) tuples of some columns of a row; None when a column is missing. */
  function Selected(columns: seq<string>, row: Row): (r: Option<seq<Value>>)
    ensures r.Some? <==> forall c :: c in columns ==> c in row
    ensures r.Some? ==> |r.value| == |columns|
    ensures r.Some? ==> forall i :: 0 <= i < |columns| ==> r.value[i] == Array(true, [Text(columns[i]), row[columns[i]]])
  {
    if columns == [] then Some([])
    else if columns[0] !in row then None
    else
      match Selected(columns[1..], row)
      case None => None
      case Some(rest) => Some([Array(true, [Text(columns[0]), row[columns[0]]])] + rest)
  }

  /** One row's payload: the canonical bytes of the tuple of its selected columns. */
  function RowPayload(columns: seq<string>, row: Row): Option<bytes> {
    match Selected(columns, row)
    case None => None
    case Some(pairs) => Payload(Array(true, pairs))
  }

  /** Each row's payload. */
  function Each(columns: seq<string>, rows: seq<Row>): seq<Option<bytes>> {
    seq(|rows|, i requires 0 <= i < |rows| => RowPayload(columns, rows[i]))
  }

  function RowPayloads(columns: seq<string>, rows: seq<Row>): Option<seq<bytes>> { Gather(Each(columns, rows)) }

  function StreamOf(columns: seq<string>, rows: seq<Row>): Option<bytes> {
    match RowPayloads(columns, rows)
    case None => None
    case Some(payloads) => Digest.Stream(payloads)
  }

  /** The summary, or None where it raises: no primary key, a missing column, a rejected value. */
  function Summarize(table: Table, rows: seq<Row>): Option<Summary> {
    if table.keyColumns == [] then None
    else
      match (StreamOf(table.keyColumns, rows), StreamOf(table.columns, rows))
      case (Some(keys), Some(all)) => Some(Summary(|rows|, keys, all))
      case _ => None
  }

  /** The summary's loop over the rows. */
  method CanonicalTableSummary(table: Table, rows: seq<Row>) returns (summary: Option<Summary>)
    ensures summary == Summarize(table, rows)
  {
    if table.keyColumns == [] {
      return None;
    }
    ghost var each, eachKey := Each(table.columns, rows), Each(table.keyColumns, rows);
    var rowPayloads: seq<bytes> := [];
    var keyPayloads: seq<bytes> := [];
    for i := 0 to |rows|
      invariant Gather(each[..i]) == Some(rowPayloads)
      invariant Gather(eachKey[..i]) == Some(keyPayloads)
    {
      var all := RowPayload(table.columns, rows[i]);
      var key := RowPayload(table.keyColumns, rows[i]);
      if all == None || key == None {
        if all == None {
          GatherNone(each, i);
        } else {
          GatherNone(eachKey, i);
        }
        return None;
      }
      GatherSnoc(each, i, rowPayloads);
      GatherSnoc(eachKey, i, keyPayloads);
      rowPayloads := rowPayloads + [all.value];
      keyPayloads := keyPayloads + [key.value];
    }
    assert each[..|rows|] == each && eachKey[..|rows|] == eachKey;
    var keys := Digest.DigestPayloads(keyPayloads);
    var all := Digest.DigestPayloads(rowPayloads);
    if keys == None || all == None {
      return None;
    }
    summary := Some(Summary(|rows|, keys.value, all.value));
  }

  // ----- What the streams identify -----

  /** A row whose selected columns are all there, well formed and accepted. */
  predicate Good(columns: seq<string>, row: Row) {
    forall c :: c in columns ==> c in row && WellFormed(row[c]) && Accepted(row[c])
  }

  /** Two rows agree on some columns, up to how their values are represented. */
  predicate SameRow(columns: seq<string>, a: Row, b: Row)
    requires Good(columns, a) && Good(columns, b)
  {
    forall c :: c in columns ==> Equivalent(a[c], b[c])
  }

  lemma CellIff(name: string, x: Value, y: Value)
    requires WellFormed(x) && WellFormed(y) && Accepted(x) && Accepted(y)
    ensures var a, b := Array(true, [Text(name), x]), Array(true, [Text(name), y]);
            WellFormed(a) && WellFormed(b) && Accepted(a) && Accepted(b) && (Equivalent(a, b) <==> Equivalent(x, y))
  {
    var p, q := [Text(name), x], [Text(name), y];
    assert p[0] == Text(name) == q[0] && p[1] == x && q[1] == y;
    PairIff(p, q);
  }

  lemma PairIff(p: seq<Value>, q: seq<Value>)
    requires |p| == |q| == 2
    ensures Equivalent(Array(true, p), Array(true, q)) <==> Equivalent(p[0], q[0]) && Equivalent(p[1], q[1])
  {
  }

  /** Rows have equal payloads exactly when they agree on every selected column. */
  lemma RowPayloadIff(columns: seq<string>, a: Row, b: Row)
    requires Good(columns, a) && Good(columns, b)
    ensures RowPayload(columns, a).Some? && RowPayload(columns, b).Some?
    ensures RowPayload(columns, a) == RowPayload(columns, b) <==> SameRow(columns, a, b)
  {
    var x, y := Selected(columns, a).value, Selected(columns, b).value;
    forall i | 0 <= i < |columns|
      ensures WellFormed(x[i]) && WellFormed(y[i]) && Accepted(x[i]) && Accepted(y[i])
      ensures Equivalent(x[i], y[i]) <==> Equivalent(a[columns[i]], b[columns[i]])
    {
      assert columns[i] in columns;
      CellIff(columns[i], a[columns[i]], b[columns[i]]);
    }
    PayloadIff(Array(true, x), Array(true, y));
    TuplesAgree(x, y);
    AllColumns(columns, a, b);
  }

  lemma TuplesAgree(x: seq<Value>, y: seq<Value>)
    requires |x| == |y|
    ensures Equivalent(Array(true, x), Array(true, y)) <==> forall i :: 0 <= i < |x| ==> Equivalent(x[i], y[i])
  {
  }

  lemma AllColumns(columns: seq<string>, a: Row, b: Row)
    requires Good(columns, a) && Good(columns, b)
    ensures SameRow(columns, a, b) <==> forall i :: 0 <= i < |columns| ==> Equivalent(a[columns[i]], b[columns[i]])
  {
    if SameRow(columns, a, b) {
      forall i | 0 <= i < |columns|
        ensures Equivalent(a[columns[i]], b[columns[i]])
      {
        assert columns[i] in columns;
      }
    }
  }

  predicate AllGood(columns: seq<string>, rows: seq<Row>) { forall i :: 0 <= i < |rows| ==> Good(columns, rows[i]) }

  /** How many rows agree with a given one. */
  function Count(columns: seq<string>, rows: seq<Row>, like: Row): nat
    requires AllGood(columns, rows) && Good(columns, like)
  {
    if rows == [] then 0 else (if SameRow(columns, rows[0], like) then 1 else 0) + Count(columns, rows[1..], like)
  }

  lemma PayloadsExist(columns: seq<string>, rows: seq<Row>)
    requires AllGood(columns, rows)
    ensures RowPayloads(columns, rows).Some?
  {
    forall i | 0 <= i < |rows|
      ensures RowPayload(columns, rows[i]).Some?
    {
      RowPayloadIff(columns, rows[i], rows[i]);
    }
  }

  lemma {:induction false} CountIsMultiplicity(columns: seq<string>, rows: seq<Row>, like: Row)
    requires AllGood(columns, rows) && Good(columns, like)
    ensures RowPayloads(columns, rows).Some? && RowPayload(columns, like).Some?
    ensures Count(columns, rows, like) == multiset(RowPayloads(columns, rows).value)[RowPayload(columns, like).value]
  {
    PayloadsExist(columns, rows);
    RowPayloadIff(columns, like, like);
    if rows != [] {
      CountIsMultiplicity(columns, rows[1..], like);
      RowPayloadIff(columns, rows[0], like);
      PayloadsCons(columns, rows);
    }
  }

  lemma PayloadsCons(columns: seq<string>, rows: seq<Row>)
    requires rows != [] && RowPayloads(columns, rows).Some? && RowPayloads(columns, rows[1..]).Some?
    ensures RowPayload(columns, rows[0]).Some?
    ensures RowPayloads(columns, rows).value == [RowPayload(columns, rows[0]).value] + RowPayloads(columns, rows[1..]).value
  {
    assert Each(columns, rows)[0] == RowPayload(columns, rows[0]);
    assert Each(columns, rows)[1..] == Each(columns, rows[1..]);
  }

  /** Every row occurs equally often in both collections. */
  ghost predicate SameCounts(columns: seq<string>, a: seq<Row>, b: seq<Row>)
    requires AllGood(columns, a) && AllGood(columns, b)
  {
    forall like :: Good(columns, like) ==> Count(columns, a, like) == Count(columns, b, like)
  }

  /**
   * Two collections of rows feed the hash the same bytes exactly when every row occurs
   * equally often in both: row order never matters, nor how values are represented, and
   * nothing else is lost.
   */
  lemma StreamIdentifiesRows(columns: seq<string>, a: seq<Row>, b: seq<Row>)
    requires AllGood(columns, a) && AllGood(columns, b)
    requires StreamOf(columns, a).Some? && StreamOf(columns, b).Some?
    ensures StreamOf(columns, a) == StreamOf(columns, b) <==> SameCounts(columns, a, b)
  {
    var x, y := RowPayloads(columns, a).value, RowPayloads(columns, b).value;
    Digest.StreamIdentifiesMultiset(x, y);
    if multiset(x) == multiset(y) {
      forall like | Good(columns, like)
        ensures Count(columns, a, like) == Count(columns, b, like)
      {
        CountIsMultiplicity(columns, a, like);
        CountIsMultiplicity(columns, b, like);
      }
    }
    if SameCounts(columns, a, b) {
      CountsDecide(columns, a, b, x, y);
    }
  }

  lemma CountAt(columns: seq<string>, a: seq<Row>, b: seq<Row>, x: seq<bytes>, y: seq<bytes>, like: Row, p: bytes)
    requires AllGood(columns, a) && AllGood(columns, b) && Good(columns, like) && SameCounts(columns, a, b)
    requires RowPayloads(columns, a) == Some(x) && RowPayloads(columns, b) == Some(y) && RowPayload(columns, like) == Some(p)
    ensures multiset(x)[p] == multiset(y)[p]
  {
    CountIsMultiplicity(columns, a, like);
    CountIsMultiplicity(columns, b, like);
  }

  lemma CountsDecide(columns: seq<string>, a: seq<Row>, b: seq<Row>, x: seq<bytes>, y: seq<bytes>)
    requires AllGood(columns, a) && AllGood(columns, b) && SameCounts(columns, a, b)
    requires RowPayloads(columns, a) == Some(x) && RowPayloads(columns, b) == Some(y)
    ensures multiset(x) == multiset(y)
  {
    forall i | 0 <= i < |x|
      ensures multiset(x)[x[i]] == multiset(y)[x[i]]
    {
      CountAt(columns, a, b, x, y, a[i], x[i]);
    }
    forall i | 0 <= i < |y|
      ensures multiset(x)[y[i]] == multiset(y)[y[i]]
    {
      CountAt(columns, a, b, x, y, b[i], y[i]);
    }
    SameMultiplicities(x, y);
  }

  /** When there is a summary: a primary key, complete rows of accepted values, and lengths that fit their prefix. */
  lemma SummarizeIff(table: Table, rows: seq<Row>)
    ensures Summarize(table, rows).Some? <==>
            && table.keyColumns != []
            && (forall i :: 0 <= i < |rows| ==> RowPayload(table.keyColumns, rows[i]).Some? && RowPayload(table.columns, rows[i]).Some?)
            && (forall i :: 0 <= i < |rows| ==>
                  |RowPayload(table.keyColumns, rows[i]).value| < Digest.LIMIT && |RowPayload(table.columns, rows[i]).value| < Digest.LIMIT)
  {
    if table.keyColumns != [] {
      StreamExists(table.keyColumns, rows);
      StreamExists(table.columns, rows);
    }
  }

  lemma StreamExists(columns: seq<string>, rows: seq<Row>)
    ensures StreamOf(columns, rows).Some? <==>
            forall i :: 0 <= i < |rows| ==> RowPayload(columns, rows[i]).Some? && |RowPayload(columns, rows[i]).value| < Digest.LIMIT
  {
    var each := Each(columns, rows);
    assert forall i :: 0 <= i < |rows| ==> each[i] == RowPayload(columns, rows[i]);
    if RowPayloads(columns, rows).Some? {
      var payloads := RowPayloads(columns, rows).value;
      assert forall i :: 0 <= i < |rows| ==> each[i] == Some(payloads[i]);
      if StreamOf(columns, rows).Some? {
        assert forall i :: 0 <= i < |rows| ==> payloads[i] in payloads;
      }
    }
  }

  /** A selected row has a payload exactly when no column is missing and every value is accepted at any depth. */
  lemma RowPayloadExists(columns: seq<string>, row: Row)
    ensures RowPayload(columns, row).Some? <==> forall c :: c in columns ==> c in row && Accepted(row[c])
  {
    if Selected(columns, row).Some? {
      var pairs := Selected(columns, row).value;
      EncodesAccepted(Array(true, pairs));
      forall i | 0 <= i < |columns|
        ensures Accepted(pairs[i]) <==> Accepted(row[columns[i]])
      {
        CellAccepted(columns[i], row[columns[i]]);
      }
      if forall i :: 0 <= i < |columns| ==> Accepted(row[columns[i]]) {
        assert forall c :: c in columns ==> exists i :: 0 <= i < |columns| && columns[i] == c;
      }
      assert forall i :: 0 <= i < |columns| ==> columns[i] in columns;
    }
  }

  lemma CellAccepted(name: string, v: Value)
    ensures Accepted(Array(true, [Text(name), v])) <==> Accepted(v)
  {
    var items := [Text(name), v];
    assert items[0] == Text(name) && items[1] == v;
  }

  /** Each part of a summary identifies its own columns of the rows. */
  lemma SummaryParts(table: Table, a: seq<Row>, b: seq<Row>)
    requires Summarize(table, a).Some? && Summarize(table, b).Some?
    requires AllGood(table.columns, a) && AllGood(table.columns, b) && AllGood(table.keyColumns, a) && AllGood(table.keyColumns, b)
    ensures var s, t := Summarize(table, a).value, Summarize(table, b).value;
            && s.rowCount == |a| && t.rowCount == |b|
            && (s.keyStream == t.keyStream <==> SameCounts(table.keyColumns, a, b))
            && (s.rowStream == t.rowStream <==> SameCounts(table.columns, a, b))
  {
    StreamIdentifiesRows(table.keyColumns, a, b);
    StreamIdentifiesRows(table.columns, a, b);
  }

  /** Equal summaries of one table hold the same rows equally often. */
  lemma EqualSummaries(table: Table, a: seq<Row>, b: seq<Row>, like: Row)
    requires AllGood(table.columns, a) && AllGood(table.columns, b) && Good(table.columns, like)
    requires Summarize(table, a).Some? && Summarize(table, a) == Summarize(table, b)
    ensures |a| == |b| && Count(table.columns, a, like) == Count(table.columns, b, like)
  {
    StreamIdentifiesRows(table.columns, a, b);
  }

  /** Reordering the rows leaves the whole summary unchanged. */
  lemma ReorderedSummary(table: Table, a: seq<Row>, b: seq<Row>)
    requires AllGood(table.columns, a) && AllGood(table.keyColumns, a)
    requires multiset(a) == multiset(b)
    ensures Summarize(table, a) == Summarize(table, b)
  {
    assert |a| == |multiset(a)| == |multiset(b)| == |b|;
    ReorderedStream(table.columns, a, b);
    ReorderedStream(table.keyColumns, a, b);
  }

  lemma ReorderedStream(columns: seq<string>, a: seq<Row>, b: seq<Row>)
    requires AllGood(columns, a) && multiset(a) == multiset(b)
    ensures StreamOf(columns, a) == StreamOf(columns, b)
  {
    Sorting.Members(a, b);
    forall i | 0 <= i < |b|
      ensures Good(columns, b[i])
    {
      assert b[i] in a;
    }
    PayloadsExist(columns, a);
    PayloadsExist(columns, b);
    var x, y := RowPayloads(columns, a).value, RowPayloads(columns, b).value;
    PayloadsAssigned(columns, a, b);
    SameBags(a, b, x, y);
    Digest.SameStream(x, y);
  }

  lemma PayloadsAssigned(columns: seq<string>, a: seq<Row>, b: seq<Row>)
    requires RowPayloads(columns, a).Some? && RowPayloads(columns, b).Some?
    ensures Assigns(a, b, RowPayloads(columns, a).value, RowPayloads(columns, b).value)
  {
    var x, y := RowPayloads(columns, a).value, RowPayloads(columns, b).value;
    forall i, j | 0 <= i < |a| && 0 <= j < |b| && a[i] == b[j]
      ensures x[i] == y[j]
    {
      assert Some(x[i]) == Each(columns, a)[i] == Each(columns, b)[j] == Some(y[j]);
    }
  }
}
