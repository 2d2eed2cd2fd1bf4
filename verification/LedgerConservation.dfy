/**
 * What acceptance guarantees about sums: minutes add up to scopes, and scopes of each
 * level add up to the ledger.  Also the migration that recomputes overdraw flags.
 */
module LedgerConservation {
  import opened Prelude
  import opened Ledger
  import opened LedgerImport

  function LedgerTotal(ledger: seq<Reservation>, c: Column): nat {
    if ledger == [] then 0
    else LedgerTotal(ledger[..|ledger|-1], c) + Contribution(ledger[|ledger|-1], c)
  }

  /** The part of the ledger bound to a run. */
  function RunBoundTotal(ledger: seq<Reservation>, c: Column): nat {
    if ledger == [] then 0
    else
      var last := ledger[|ledger|-1];
      RunBoundTotal(ledger[..|ledger|-1], c) + if last.runScope.Some? then Contribution(last, c) else 0
  }

  /** A column summed over the stored scopes of one type. */
  function ScopeSum(rows: seq<ScopeRow>, kind: ScopeType, c: Column): nat {
    if rows == [] then 0
    else (if rows[0].kind == kind then ScopeColumn(rows[0].counters, c) else 0) + ScopeSum(rows[1..], kind, c)
  }

  /** The columns minute buckets also have. */
  predicate Minutely(c: Column) { c !in {ActiveReservations, ReservedCost, ConsumedCost} }

  function BucketColumn(b: BucketCounters, c: Column): nat
    requires Minutely(c)
  {
    match c
    case ReservedRequests => b.reservedRequests
    case ReservedInput => b.reservedInput
    case ReservedOutput => b.reservedOutput
    case ConsumedRequests => b.consumedRequests
    case ConsumedInput => b.consumedInput
    case ConsumedOutput => b.consumedOutput
  }

  /** A column summed over the stored minutes of one scope. */
  function BucketSum(rows: seq<BucketRow>, scope: Id, c: Column): nat
    requires Minutely(c)
  {
    if rows == [] then 0
    else (if rows[0].key.0 == scope then BucketColumn(rows[0].counters, c) else 0) + BucketSum(rows[1..], scope, c)
  }

  // ----- A partition of facts sums to the whole -----

  /** A column summed over groups, one group after the other. */
  function GroupSum(groups: seq<Group>, facts: seq<Fact>, c: Column): nat {
    if groups == [] then 0 else Total(facts, groups[0], c) + GroupSum(groups[1..], facts, c)
  }

  /** How many of the groups keep a fact. */
  function Hits(groups: seq<Group>, f: Fact): nat {
    if groups == [] then 0 else (if Keeps(groups[0], f) then 1 else 0) + Hits(groups[1..], f)
  }

  lemma Distribute(a: nat, b: nat, x: nat)
    ensures (a + b) * x == a * x + b * x
  {
  }

  lemma {:induction false} GroupSumSnoc(groups: seq<Group>, facts: seq<Fact>, f: Fact, c: Column)
    ensures GroupSum(groups, facts + [f], c) == GroupSum(groups, facts, c) + Hits(groups, f) * Contribution(f.reservation, c)
    decreases |groups|
  {
    if groups != [] {
      TotalSnoc(facts, f, groups[0], c);
      GroupSumSnoc(groups[1..], facts, f, c);
      Distribute(if Keeps(groups[0], f) then 1 else 0, Hits(groups[1..], f), Contribution(f.reservation, c));
    }
  }

  /** If the groups keep exactly the facts that `whole` keeps, once each, the sums agree. */
  lemma {:induction false} PartitionSum(groups: seq<Group>, whole: Group, facts: seq<Fact>, c: Column)
    requires forall f :: f in facts ==> Hits(groups, f) == if Keeps(whole, f) then 1 else 0
    ensures GroupSum(groups, facts, c) == Total(facts, whole, c)
    decreases |facts|
  {
    if facts == [] {
      EmptyGroups(groups, c);
    } else {
      var init, last := facts[..|facts|-1], facts[|facts|-1];
      assert init + [last] == facts;
      PartitionSum(groups, whole, init, c);
      GroupSumSnoc(groups, init, last, c);
      TotalSnoc(init, last, whole, c);
    }
  }

  lemma {:induction false} EmptyGroups(groups: seq<Group>, c: Column)
    ensures GroupSum(groups, [], c) == 0
    decreases |groups|
  {
    if groups != [] {
      EmptyGroups(groups[1..], c);
    }
  }

  // ----- Scopes of one type partition the facts of that type -----

  function ScopeGroups(rows: seq<ScopeRow>, kind: ScopeType): seq<Group> {
    if rows == [] then []
    else (if rows[0].kind == kind then [InScope(rows[0].id)] else []) + ScopeGroups(rows[1..], kind)
  }

  predicate UniqueIds(rows: seq<ScopeRow>) { forall i, j :: 0 <= i < j < |rows| ==> rows[i].id != rows[j].id }

  lemma {:induction false} ScopeHits(rows: seq<ScopeRow>, kind: ScopeType, f: Fact)
    requires UniqueIds(rows)
    ensures Hits(ScopeGroups(rows, kind), f) ==
            if exists k :: 0 <= k < |rows| && rows[k].id == f.scope && rows[k].kind == kind then 1 else 0
    decreases |rows|
  {
    if rows != [] {
      ScopeHits(rows[1..], kind, f);
      var rest := ScopeGroups(rows[1..], kind);
      assert rows[0].kind == kind ==> ([InScope(rows[0].id)] + rest)[1..] == rest;
      assert [] + rest == rest;
      if k :| 0 <= k < |rows| && rows[k].id == f.scope && rows[k].kind == kind {
        assert k > 0 ==> rows[1..][k-1] == rows[k];
      }
      if k :| 0 <= k < |rows[1..]| && rows[1..][k].id == f.scope && rows[1..][k].kind == kind {
        assert rows[k+1] == rows[1..][k];
      }
    }
  }

  lemma GroupsCons(rows: seq<ScopeRow>, kind: ScopeType)
    requires rows != []
    ensures ScopeGroups(rows, kind) ==
            if rows[0].kind == kind then [InScope(rows[0].id)] + ScopeGroups(rows[1..], kind) else ScopeGroups(rows[1..], kind)
  {
    assert [] + ScopeGroups(rows[1..], kind) == ScopeGroups(rows[1..], kind);
  }

  lemma GroupSumCons(g: Group, rest: seq<Group>, facts: seq<Fact>, c: Column)
    ensures GroupSum([g] + rest, facts, c) == Total(facts, g, c) + GroupSum(rest, facts, c)
  {
    assert ([g] + rest)[1..] == rest;
  }

  lemma DerivedColumn(facts: seq<Fact>, id: Id, c: Column)
    ensures ScopeColumn(DerivedScope(facts, id), c) == Total(facts, InScope(id), c)
  {
  }

  lemma {:induction false} ScopeSumIsGroupSum(rows: seq<ScopeRow>, kind: ScopeType, facts: seq<Fact>, c: Column)
    requires forall k :: 0 <= k < |rows| ==> rows[k].counters == DerivedScope(facts, rows[k].id)
    ensures ScopeSum(rows, kind, c) == GroupSum(ScopeGroups(rows, kind), facts, c)
    decreases |rows|
  {
    if rows != [] {
      ScopeSumIsGroupSum(rows[1..], kind, facts, c);
      GroupsCons(rows, kind);
      var rest := ScopeGroups(rows[1..], kind);
      if rows[0].kind == kind {
        DerivedColumn(facts, rows[0].id, c);
        GroupSumCons(InScope(rows[0].id), rest, facts, c);
      }
    }
  }

  /** Each reservation has one reference of each type, and a run reference if it is bound to one. */
  lemma {:induction false} KindTotal(runs: Runs, ledger: seq<Reservation>, kind: ScopeType, c: Column)
    ensures Total(Facts(runs, ledger), OfKind(kind), c) ==
            if kind == Run then RunBoundTotal(ledger, c) else LedgerTotal(ledger, c)
    decreases |ledger|
  {
    if ledger != [] {
      var init, last := ledger[..|ledger|-1], ledger[|ledger|-1];
      KindTotal(runs, init, kind, c);
      TotalAppend(Facts(runs, init), RefFacts(runs, last), OfKind(kind), c);
      RefTotals(runs, last, c);
    }
  }

  lemma RefTotals(runs: Runs, r: Reservation, c: Column)
    ensures forall kind: ScopeType :: Total(RefFacts(runs, r), OfKind(kind), c) ==
              if kind == Run && r.runScope.None? then 0 else Contribution(r, c)
  {
    var e := ExplicitInput(runs, r);
    var g, p, m := Fact(r.globalScope, Global, r, e), Fact(r.providerScope, Provider, r, e), Fact(r.modelScope, Model, r, e);
    forall kind: ScopeType
      ensures Total(RefFacts(runs, r), OfKind(kind), c) == if kind == Run && r.runScope.None? then 0 else Contribution(r, c)
    {
      TotalSnoc([], g, OfKind(kind), c);
      TotalSnoc([g], p, OfKind(kind), c);
      TotalSnoc([g, p], m, OfKind(kind), c);
      assert [] + [g] == [g] && [g] + [p] == [g, p] && [g, p] + [m] == [g, p, m];
      if r.runScope.Some? {
        TotalSnoc([g, p, m], Fact(r.runScope.value, Run, r, e), OfKind(kind), c);
      } else {
        assert RefFacts(runs, r) == [g, p, m];
      }
    }
  }

  /**
   * Once the importer accepts, the global, provider and model scopes each add up to
   * the whole ledger in every column, and the run scopes to its run-bound part.
   */
  lemma ScopesConserve(db: Database, c: Column)
    requires db.Keyed() && Accepts(db)
    ensures ScopeSum(db.scopes, Global, c) == LedgerTotal(db.ledger, c)
    ensures ScopeSum(db.scopes, Provider, c) == LedgerTotal(db.ledger, c)
    ensures ScopeSum(db.scopes, Model, c) == LedgerTotal(db.ledger, c)
    ensures ScopeSum(db.scopes, Run, c) == RunBoundTotal(db.ledger, c)
  {
    forall kind: ScopeType
      ensures ScopeSum(db.scopes, kind, c) == if kind == Run then RunBoundTotal(db.ledger, c) else LedgerTotal(db.ledger, c)
    {
      KindTotal(db.runs, db.ledger, kind, c);
      ScopeSumIsGroupSum(db.scopes, kind, db.AllFacts(), c);
      forall f | f in db.AllFacts()
        ensures Hits(ScopeGroups(db.scopes, kind), f) == if Keeps(OfKind(kind), f) then 1 else 0
      {
        ScopeHits(db.scopes, kind, f);
        assert FindsScope(db, f);
        var n :| 0 <= n < |db.scopes| && db.scopes[n].id == f.scope && db.scopes[n].kind == f.kind;
        assert forall k :: 0 <= k < |db.scopes| && db.scopes[k].id == f.scope ==> k == n;
      }
      PartitionSum(ScopeGroups(db.scopes, kind), OfKind(kind), db.AllFacts(), c);
    }
  }

  // ----- The minutes of a scope partition its facts -----

  function BucketGroups(rows: seq<BucketRow>, scope: Id): seq<Group> {
    if rows == [] then []
    else (if rows[0].key.0 == scope then [InBucket(rows[0].key)] else []) + BucketGroups(rows[1..], scope)
  }

  predicate UniqueKeys(rows: seq<BucketRow>) { forall i, j :: 0 <= i < j < |rows| ==> rows[i].key != rows[j].key }

  lemma {:induction false} BucketHits(rows: seq<BucketRow>, scope: Id, f: Fact)
    requires UniqueKeys(rows)
    ensures Hits(BucketGroups(rows, scope), f) ==
            if f.scope == scope && exists k :: 0 <= k < |rows| && rows[k].key == KeyOf(f) then 1 else 0
    decreases |rows|
  {
    if rows != [] {
      BucketHits(rows[1..], scope, f);
      var rest := BucketGroups(rows[1..], scope);
      assert rows[0].key.0 == scope ==> ([InBucket(rows[0].key)] + rest)[1..] == rest;
      assert [] + rest == rest;
      if k :| 0 <= k < |rows| && rows[k].key == KeyOf(f) {
        assert k > 0 ==> rows[1..][k-1] == rows[k];
      }
      if k :| 0 <= k < |rows[1..]| && rows[1..][k].key == KeyOf(f) {
        assert rows[k+1] == rows[1..][k];
      }
    }
  }

  lemma {:induction false} BucketSumIsGroupSum(rows: seq<BucketRow>, scope: Id, facts: seq<Fact>, c: Column)
    requires Minutely(c)
    requires forall k :: 0 <= k < |rows| ==> rows[k].counters == DerivedBucket(facts, rows[k].key)
    ensures BucketSum(rows, scope, c) == GroupSum(BucketGroups(rows, scope), facts, c)
    decreases |rows|
  {
    if rows != [] {
      BucketSumIsGroupSum(rows[1..], scope, facts, c);
      var rest := BucketGroups(rows[1..], scope);
      assert rows[0].key.0 == scope ==> ([InBucket(rows[0].key)] + rest)[1..] == rest;
      assert [] + rest == rest;
    }
  }

  /** Once the importer accepts, a scope's requests and tokens are the sum over its minutes. */
  lemma MinutesConserve(db: Database, k: nat, c: Column)
    requires db.Keyed() && Accepts(db) && k < |db.scopes| && Minutely(c)
    ensures ScopeColumn(db.scopes[k].counters, c) == BucketSum(db.buckets, db.scopes[k].id, c)
  {
    var id := db.scopes[k].id;
    forall f | f in db.AllFacts()
      ensures Hits(BucketGroups(db.buckets, id), f) == if Keeps(InScope(id), f) then 1 else 0
    {
      BucketHits(db.buckets, id, f);
      assert HasBucket(db, KeyOf(f));
    }
    PartitionSum(BucketGroups(db.buckets, id), InScope(id), db.AllFacts(), c);
    BucketSumIsGroupSum(db.buckets, id, db.AllFacts(), c);
  }

  // ----- The overdraw migration -----

  predicate ReferencesScope(r: Reservation, id: Id) {
    r.globalScope == id || r.providerScope == id || r.modelScope == id || r.runScope == Some(id)
  }

  /** The EXISTS expression of the migration, upgrading (`requireExplicit`) or downgrading. */
  predicate MigrationOverdrawn(db: Database, id: Id, requireExplicit: bool) {
    exists r :: r in db.ledger && ReferencesScope(r, id) && OverdrawnBy(r, !requireExplicit || ExplicitInput(db.runs, r))
  }

  lemma {:induction false} FactIn(runs: Runs, ledger: seq<Reservation>, id: Id, r: Reservation)
    ensures (exists f :: f in Facts(runs, ledger) && f.scope == id && f.reservation == r) <==> r in ledger && ReferencesScope(r, id)
    ensures forall f :: f in Facts(runs, ledger) ==> f.explicitInput == ExplicitInput(runs, f.reservation)
    decreases |ledger|
  {
    if ledger != [] {
      var init, last := ledger[..|ledger|-1], ledger[|ledger|-1];
      assert init + [last] == ledger;
      FactIn(runs, init, id, r);
      assert forall f :: f in Facts(runs, ledger) <==> f in Facts(runs, init) || f in RefFacts(runs, last);
      RefIn(runs, last, id);
    }
  }

  lemma RefIn(runs: Runs, r: Reservation, id: Id)
    ensures (exists f :: f in RefFacts(runs, r) && f.scope == id) <==> ReferencesScope(r, id)
  {
    var refs := RefFacts(runs, r);
    assert refs[0].scope == r.globalScope && refs[1].scope == r.providerScope && refs[2].scope == r.modelScope;
    assert r.runScope.Some? ==> refs[3].scope == r.runScope.value;
    assert refs[0] in refs && refs[1] in refs && refs[2] in refs && (r.runScope.Some? ==> refs[3] in refs);
  }

  /** The migration's flag is the flag the importer rebuilds. */
  lemma MigrationAgrees(db: Database, id: Id)
    ensures MigrationOverdrawn(db, id, true) <==> DerivedScope(db.AllFacts(), id).overdrawn
    ensures MigrationOverdrawn(db, id, true) ==> MigrationOverdrawn(db, id, false)
  {
    assert forall r: Reservation, b: bool :: OverdrawnBy(r, b) ==> OverdrawnBy(r, true);
    var facts := db.AllFacts();
    if r :| r in db.ledger && ReferencesScope(r, id) && OverdrawnBy(r, ExplicitInput(db.runs, r)) {
      FactIn(db.runs, db.ledger, id, r);
      assert exists f :: f in facts && f.scope == id && f.reservation == r;
      var f :| f in facts && f.scope == id && f.reservation == r;
      assert Overdraws(f);
      assert ScopeOverdrawn(facts, id);
    }
    if ScopeOverdrawn(facts, id) {
      var f :| f in facts && f.scope == id && Overdraws(f);
      FactIn(db.runs, db.ledger, id, f.reservation);
    }
  }

  /** Rewrites the flag of every scope; refuses while a reservation is active. */
  method RecomputeOverdrawn(db: Database, requireExplicit: bool) returns (r: Option<seq<ScopeRow>>)
    ensures r.None? <==> exists x :: x in db.ledger && Active(x.state)
    ensures r.Some? ==>
              && |r.value| == |db.scopes|
              && forall k :: 0 <= k < |db.scopes| ==>
                   r.value[k] == db.scopes[k].(counters := db.scopes[k].counters.(overdrawn := MigrationOverdrawn(db, db.scopes[k].id, requireExplicit)))
  {
    if exists x :: x in db.ledger && Active(x.state) {
      return None;
    }
    var rows: seq<ScopeRow> := [];
    while |rows| < |db.scopes|
      invariant |rows| <= |db.scopes|
      invariant forall k :: 0 <= k < |rows| ==>
        rows[k] == db.scopes[k].(counters := db.scopes[k].counters.(overdrawn := MigrationOverdrawn(db, db.scopes[k].id, requireExplicit)))
    {
      var row := db.scopes[|rows|];
      var flag := MigrationOverdrawn(db, row.id, requireExplicit);
      rows := rows + [row.(counters := row.counters.(overdrawn := flag))];
    }
    r := Some(rows);
  }

  predicate AgreesButForFlag(a: ScopeCounters, b: ScopeCounters) { a.(overdrawn := b.overdrawn) == b }

  /** Upgrading repairs a database whose only fault is its flags: the importer's scope check then passes. */
  lemma UpgradeRepairs(db: Database, rows: seq<ScopeRow>)
    requires |rows| == |db.scopes|
    requires forall k :: 0 <= k < |rows| ==>
               rows[k] == db.scopes[k].(counters := db.scopes[k].counters.(overdrawn := MigrationOverdrawn(db, db.scopes[k].id, true)))
    ensures ScopesAgree(db.(scopes := rows)) <==>
            forall k :: 0 <= k < |db.scopes| ==> AgreesButForFlag(db.scopes[k].counters, DerivedScope(db.AllFacts(), db.scopes[k].id))
  {
    forall k | 0 <= k < |rows| {
      MigrationAgrees(db, db.scopes[k].id);
    }
    var after := db.(scopes := rows);
    assert after.AllFacts() == db.AllFacts();
    if forall k :: 0 <= k < |db.scopes| ==> AgreesButForFlag(db.scopes[k].counters, DerivedScope(db.AllFacts(), db.scopes[k].id)) {
      forall k | 0 <= k < |rows| ensures rows[k].counters == DerivedScope(after.AllFacts(), rows[k].id) {
        assert AgreesButForFlag(db.scopes[k].counters, DerivedScope(db.AllFacts(), db.scopes[k].id));
      }
    }
    if ScopesAgree(after) {
      forall k | 0 <= k < |db.scopes|
        ensures AgreesButForFlag(db.scopes[k].counters, DerivedScope(db.AllFacts(), db.scopes[k].id))
      {
        assert rows[k].counters == DerivedScope(after.AllFacts(), rows[k].id);
      }
    }
  }
}
