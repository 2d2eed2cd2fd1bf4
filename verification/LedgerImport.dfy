/**
 * The importer's check: one pass over the ledger that mutates a counter object per
 * scope and per minute bucket, then a comparison with the stored rows.
 */
module LedgerImport {
  import opened Prelude
  import opened Ledger

  class ScopeLedgerCounters {
    var activeReservations: nat
    var reservedRequests: nat
    var reservedInput: nat
    var reservedOutput: nat
    var reservedCost: nat
    var consumedRequests: nat
    var consumedInput: nat
    var consumedOutput: nat
    var consumedCost: nat
    var overdrawn: bool

    function Values(): ScopeCounters
      reads this
    {
      ScopeCounters(activeReservations, reservedRequests, reservedInput, reservedOutput, reservedCost,
                    consumedRequests, consumedInput, consumedOutput, consumedCost, overdrawn)
    }

    constructor ()
      ensures Values() == ScopeCounters(0, 0, 0, 0, 0, 0, 0, 0, 0, false)
    {
      activeReservations, reservedRequests, reservedInput, reservedOutput, reservedCost := 0, 0, 0, 0, 0;
      consumedRequests, consumedInput, consumedOutput, consumedCost, overdrawn := 0, 0, 0, 0, false;
    }

    /** Add one reservation, branch by branch. */
    method Accumulate(r: Reservation, explicitInput: bool)
      modifies this
      ensures Values() == AddToScope(old(Values()), r, explicitInput)
    {
      ScopeColumns(r, explicitInput);
      if Active(r.state) {
        activeReservations := activeReservations + 1;
        reservedInput := reservedInput + OrZero(r.reserved.input);
        reservedOutput := reservedOutput + OrZero(r.reserved.output);
        reservedCost := reservedCost + OrZero(r.reserved.cost);
      }
      if r.state == Reserved {
        reservedRequests := reservedRequests + 1;
      }
      if Consumed(r.state) {
        consumedRequests := consumedRequests + 1;
      }
      if Settled(r.state) {
        consumedInput := consumedInput + OrZero(r.actual.input);
        consumedOutput := consumedOutput + OrZero(r.actual.output);
        consumedCost := consumedCost + OrZero(r.actual.cost);
        overdrawn := overdrawn || ReservationIsOverdrawn(r, explicitInput);
      }
    }
  }

  /** The overdraw test in the order the importer makes it. */
  predicate ReservationIsOverdrawn(r: Reservation, explicitInput: bool) {
    if !Settled(r.state) then false
    else if explicitInput && Exceeds(r.actual.input, r.reserved.input) then true
    else if Exceeds(r.actual.output, r.reserved.output) then true
    else explicitInput && Exceeds(r.actual.cost, r.reserved.cost)
  }

  /** One reservation's effect on each column. */
  function AddToScope(s: ScopeCounters, r: Reservation, explicitInput: bool): ScopeCounters {
    ScopeCounters(s.activeReservations + Contribution(r, ActiveReservations), s.reservedRequests + Contribution(r, ReservedRequests),
                  s.reservedInput + Contribution(r, ReservedInput), s.reservedOutput + Contribution(r, ReservedOutput),
                  s.reservedCost + Contribution(r, ReservedCost), s.consumedRequests + Contribution(r, ConsumedRequests),
                  s.consumedInput + Contribution(r, ConsumedInput), s.consumedOutput + Contribution(r, ConsumedOutput),
                  s.consumedCost + Contribution(r, ConsumedCost), s.overdrawn || OverdrawnBy(r, explicitInput))
  }

  /** What a reservation adds, column by column, in terms of its state. */
  lemma ScopeColumns(r: Reservation, explicitInput: bool)
    ensures Contribution(r, ActiveReservations) == if Active(r.state) then 1 else 0
    ensures Contribution(r, ReservedRequests) == if r.state == Reserved then 1 else 0
    ensures Contribution(r, ReservedInput) == if Active(r.state) then OrZero(r.reserved.input) else 0
    ensures Contribution(r, ReservedOutput) == if Active(r.state) then OrZero(r.reserved.output) else 0
    ensures Contribution(r, ReservedCost) == if Active(r.state) then OrZero(r.reserved.cost) else 0
    ensures Contribution(r, ConsumedRequests) == if Consumed(r.state) then 1 else 0
    ensures Contribution(r, ConsumedInput) == if Settled(r.state) then OrZero(r.actual.input) else 0
    ensures Contribution(r, ConsumedOutput) == if Settled(r.state) then OrZero(r.actual.output) else 0
    ensures Contribution(r, ConsumedCost) == if Settled(r.state) then OrZero(r.actual.cost) else 0
    ensures OverdrawnBy(r, explicitInput) <==> Settled(r.state) && ReservationIsOverdrawn(r, explicitInput)
  {
  }

  lemma DerivedScopeSnoc(facts: seq<Fact>, f: Fact, id: Id)
    ensures DerivedScope(facts + [f], id) ==
            if id == f.scope then AddToScope(DerivedScope(facts, id), f.reservation, f.explicitInput) else DerivedScope(facts, id)
  {
    forall c: Column { TotalSnoc(facts, f, InScope(id), c); }
    assert forall g :: g in facts + [f] <==> g in facts || g == f;
  }

  class BucketLedgerCounters {
    var reservedRequests: nat
    var reservedInput: nat
    var reservedOutput: nat
    var consumedRequests: nat
    var consumedInput: nat
    var consumedOutput: nat

    function Values(): BucketCounters
      reads this
    {
      BucketCounters(reservedRequests, reservedInput, reservedOutput, consumedRequests, consumedInput, consumedOutput)
    }

    constructor ()
      ensures Values() == BucketCounters(0, 0, 0, 0, 0, 0)
    {
      reservedRequests, reservedInput, reservedOutput := 0, 0, 0;
      consumedRequests, consumedInput, consumedOutput := 0, 0, 0;
    }

    method Accumulate(r: Reservation)
      modifies this
      ensures Values() == AddToBucket(old(Values()), r)
    {
      if Active(r.state) {
        reservedInput := reservedInput + OrZero(r.reserved.input);
        reservedOutput := reservedOutput + OrZero(r.reserved.output);
      }
      if r.state == Reserved {
        reservedRequests := reservedRequests + 1;
      }
      if Consumed(r.state) {
        consumedRequests := consumedRequests + 1;
      }
      if Settled(r.state) {
        consumedInput := consumedInput + OrZero(r.actual.input);
        consumedOutput := consumedOutput + OrZero(r.actual.output);
      }
    }
  }

  function AddToBucket(b: BucketCounters, r: Reservation): BucketCounters {
    BucketCounters(b.reservedRequests + Contribution(r, ReservedRequests), b.reservedInput + Contribution(r, ReservedInput),
                   b.reservedOutput + Contribution(r, ReservedOutput), b.consumedRequests + Contribution(r, ConsumedRequests),
                   b.consumedInput + Contribution(r, ConsumedInput), b.consumedOutput + Contribution(r, ConsumedOutput))
  }

  lemma DerivedBucketSnoc(facts: seq<Fact>, f: Fact, key: BucketKey)
    ensures DerivedBucket(facts + [f], key) ==
            if key == KeyOf(f) then AddToBucket(DerivedBucket(facts, key), f.reservation) else DerivedBucket(facts, key)
  {
    forall c: Column { TotalSnoc(facts, f, InBucket(key), c); }
  }

  datatype Verdict = Accepted | ScopeDrift | BucketDrift

  predicate FindsScope(db: Database, f: Fact) {
    exists k :: 0 <= k < |db.scopes| && db.scopes[k].id == f.scope && db.scopes[k].kind == f.kind
  }

  predicate ScopesAgree(db: Database) {
    forall k :: 0 <= k < |db.scopes| ==> db.scopes[k].counters == DerivedScope(db.AllFacts(), db.scopes[k].id)
  }

  predicate BucketsAgree(db: Database) {
    forall k :: 0 <= k < |db.buckets| ==> db.buckets[k].counters == DerivedBucket(db.AllFacts(), db.buckets[k].key)
  }

  predicate ScopesFound(db: Database) { forall f :: f in db.AllFacts() ==> FindsScope(db, f) }

  predicate BucketsFound(db: Database) { forall f :: f in db.AllFacts() ==> HasBucket(db, KeyOf(f)) }

  ghost predicate Distinct<K(!new), V>(m: map<K, V>) { forall i, j :: i in m && j in m && i != j ==> m[i] != m[j] }

  ghost predicate ScopesHold(scopes: map<Id, ScopeLedgerCounters>, done: seq<Fact>)
    reads scopes.Values
  {
    forall id :: id in scopes ==> scopes[id].Values() == DerivedScope(done, id)
  }

  ghost predicate BucketsHold(buckets: map<BucketKey, BucketLedgerCounters>, done: seq<Fact>)
    reads buckets.Values
  {
    forall key :: key in buckets ==> buckets[key].Values() == DerivedBucket(done, key)
  }

  /** The counter objects built for the stored scopes. */
  method NewScopeCounters(db: Database) returns (expected: map<Id, ScopeLedgerCounters>)
    requires db.Keyed()
    ensures forall id :: id in expected <==> HasScope(db, id)
    ensures fresh(expected.Values) && Distinct(expected) && ScopesHold(expected, [])
  {
    expected := map[];
    var k := 0;
    while k < |db.scopes|
      invariant 0 <= k <= |db.scopes|
      invariant forall id :: id in expected <==> exists i :: 0 <= i < k && db.scopes[i].id == id
      invariant (forall id :: id in expected ==> fresh(expected[id])) && Distinct(expected) && ScopesHold(expected, [])
    {
      var counters := new ScopeLedgerCounters();
      expected := expected[db.scopes[k].id := counters];
      k := k + 1;
    }
  }

  method NewBucketCounters(db: Database) returns (expected: map<BucketKey, BucketLedgerCounters>)
    requires db.Keyed()
    ensures forall key :: key in expected <==> HasBucket(db, key)
    ensures fresh(expected.Values) && Distinct(expected) && BucketsHold(expected, [])
  {
    expected := map[];
    var k := 0;
    while k < |db.buckets|
      invariant 0 <= k <= |db.buckets|
      invariant forall key :: key in expected <==> exists i :: 0 <= i < k && db.buckets[i].key == key
      invariant (forall key :: key in expected ==> fresh(expected[key])) && Distinct(expected) && BucketsHold(expected, [])
    {
      var counters := new BucketLedgerCounters();
      expected := expected[db.buckets[k].key := counters];
      k := k + 1;
    }
  }

  /** The stored scope with an id, as the importer's dictionary finds it. */
  function LookUpScope(rows: seq<ScopeRow>, id: Id): (r: Option<ScopeRow>)
    ensures r.Some? ==> r.value.id == id && exists k :: 0 <= k < |rows| && rows[k] == r.value
    ensures r.None? ==> forall k :: 0 <= k < |rows| ==> rows[k].id != id
  {
    if rows == [] then None
    else if rows[|rows|-1].id == id then Some(rows[|rows|-1])
    else LookUpScope(rows[..|rows|-1], id)
  }

  lemma LookUpFinds(db: Database, f: Fact)
    requires db.Keyed()
    ensures FindsScope(db, f) <==> LookUpScope(db.scopes, f.scope).Some? && LookUpScope(db.scopes, f.scope).value.kind == f.kind
    ensures FindsScope(db, f) ==> HasScope(db, f.scope)
  {
  }

  lemma FoundAppend(db: Database, a: seq<Fact>, b: seq<Fact>)
    ensures AllFound(db, a + b) <==> AllFound(db, a) && AllFound(db, b)
    ensures SomeMissing(db, a + b) <==> SomeMissing(db, a) || SomeMissing(db, b)
  {
    assert forall f :: f in a + b <==> f in a || f in b;
  }

  /** The facts of one more reservation. */
  lemma FactsPrefix(db: Database, i: nat)
    requires i < |db.ledger|
    ensures Facts(db.runs, db.ledger[..i+1]) == Facts(db.runs, db.ledger[..i]) + RefFacts(db.runs, db.ledger[i])
    ensures db.AllFacts() == Facts(db.runs, db.ledger[..i+1]) + Facts(db.runs, db.ledger[i+1..])
  {
    FactsPush(db.runs, db.ledger[..i], db.ledger[i]);
    PrefixParts(db.ledger, i);
    FactsAppend(db.runs, db.ledger[..i+1], db.ledger[i+1..]);
  }

  lemma FactsPush(runs: Runs, before: seq<Reservation>, r: Reservation)
    ensures Facts(runs, before + [r]) == Facts(runs, before) + RefFacts(runs, r)
  {
    assert (before + [r])[..|before|] == before;
    FactsSnoc(runs, before + [r]);
  }

  lemma PrefixParts(ledger: seq<Reservation>, i: nat)
    requires i < |ledger|
    ensures ledger[..i+1] == ledger[..i] + [ledger[i]]
    ensures ledger[..i+1] + ledger[i+1..] == ledger
  {
  }

  lemma FactsStep(db: Database, i: nat)
    requires i < |db.ledger|
    ensures var before, refs := Facts(db.runs, db.ledger[..i]), RefFacts(db.runs, db.ledger[i]);
            && Facts(db.runs, db.ledger[..i+1]) == before + refs
            && (AllFound(db, before + refs) <==> AllFound(db, before) && AllFound(db, refs))
            && (SomeMissing(db, before + refs) <==> SomeMissing(db, before) || SomeMissing(db, refs))
            && (AllFound(db, db.AllFacts()) ==> AllFound(db, refs))
  {
    FactsPrefix(db, i);
    FoundAppend(db, Facts(db.runs, db.ledger[..i]), RefFacts(db.runs, db.ledger[i]));
    FoundAppend(db, Facts(db.runs, db.ledger[..i+1]), Facts(db.runs, db.ledger[i+1..]));
  }

  /** The dictionaries have one counter object for each stored row. */
  ghost predicate KeysFor(db: Database, scopes: map<Id, ScopeLedgerCounters>, buckets: map<BucketKey, BucketLedgerCounters>) {
    && (forall id :: id in scopes <==> HasScope(db, id))
    && (forall key :: key in buckets <==> HasBucket(db, key))
    && Distinct(scopes) && Distinct(buckets)
  }

  /** The counters hold what a list of facts adds up to. */
  ghost predicate CountersHold(scopes: map<Id, ScopeLedgerCounters>, buckets: map<BucketKey, BucketLedgerCounters>, done: seq<Fact>)
    reads scopes.Values, buckets.Values
  {
    ScopesHold(scopes, done) && BucketsHold(buckets, done)
  }

  /** Into the scope's counters; the others stay as they are. */
  method AddToScopes(f: Fact, scopes: map<Id, ScopeLedgerCounters>, ghost done: seq<Fact>)
    requires f.scope in scopes && Distinct(scopes) && ScopesHold(scopes, done)
    modifies scopes.Values
    ensures ScopesHold(scopes, done + [f])
  {
    forall id { DerivedScopeSnoc(done, f, id); }
    scopes[f.scope].Accumulate(f.reservation, f.explicitInput);
  }

  /** Into the minute's counters, if there is a row for it. */
  method AddToBuckets(f: Fact, buckets: map<BucketKey, BucketLedgerCounters>, ghost done: seq<Fact>) returns (missing: bool)
    requires Distinct(buckets) && BucketsHold(buckets, done)
    modifies buckets.Values
    ensures BucketsHold(buckets, done + [f])
    ensures missing <==> KeyOf(f) !in buckets
  {
    forall key { DerivedBucketSnoc(done, f, key); }
    missing := KeyOf(f) !in buckets;
    if !missing {
      buckets[KeyOf(f)].Accumulate(f.reservation);
    }
  }

  /** The reference finds its scope, and the scope is of the right type. */
  method ScopeMatches(db: Database, f: Fact) returns (matches: bool)
    requires db.Keyed()
    ensures matches <==> FindsScope(db, f)
    ensures matches ==> HasScope(db, f.scope)
  {
    LookUpFinds(db, f);
    var row := LookUpScope(db.scopes, f.scope);
    matches := row != None && row.value.kind == f.kind;
  }

  /** One scope reference of one reservation: its scope's counters, then its minute's. */
  method AddReference(db: Database, f: Fact, scopes: map<Id, ScopeLedgerCounters>,
                      buckets: map<BucketKey, BucketLedgerCounters>, ghost done: seq<Fact>)
    returns (found: bool, missing: bool)
    requires db.Keyed() && KeysFor(db, scopes, buckets) && CountersHold(scopes, buckets, done)
    modifies scopes.Values, buckets.Values
    ensures found <==> FindsScope(db, f)
    ensures found ==> CountersHold(scopes, buckets, done + [f])
    ensures found ==> (missing <==> !HasBucket(db, KeyOf(f)))
  {
    missing := false;
    found := ScopeMatches(db, f);
    if found {
      missing := AddToBoth(f, scopes, buckets, done);
    }
  }

  method AddToBoth(f: Fact, scopes: map<Id, ScopeLedgerCounters>, buckets: map<BucketKey, BucketLedgerCounters>, ghost done: seq<Fact>)
    returns (missing: bool)
    requires f.scope in scopes && Distinct(scopes) && Distinct(buckets) && CountersHold(scopes, buckets, done)
    modifies scopes.Values, buckets.Values
    ensures CountersHold(scopes, buckets, done + [f])
    ensures missing <==> KeyOf(f) !in buckets
  {
    AddToScopes(f, scopes, done);
    missing := AddToBuckets(f, buckets, done);
  }

  predicate AllFound(db: Database, facts: seq<Fact>) { forall f :: f in facts ==> FindsScope(db, f) }

  predicate SomeMissing(db: Database, facts: seq<Fact>) { exists f :: f in facts && !HasBucket(db, KeyOf(f)) }

  lemma FoundSnoc(db: Database, facts: seq<Fact>, f: Fact)
    ensures AllFound(db, facts + [f]) <==> AllFound(db, facts) && FindsScope(db, f)
    ensures SomeMissing(db, facts + [f]) <==> SomeMissing(db, facts) || !HasBucket(db, KeyOf(f))
  {
    assert forall g :: g in facts + [f] <==> g in facts || g == f;
  }

  /** The references so far all found their scopes, and some found no minute if `missing` says so. */
  predicate FoundUpTo(db: Database, refs: seq<Fact>, j: nat, missing: bool)
    requires j <= |refs|
  {
    AllFound(db, refs[..j]) && (missing <==> SomeMissing(db, refs[..j]))
  }

  lemma PrefixSnoc(db: Database, done: seq<Fact>, refs: seq<Fact>, j: nat, missing: bool)
    requires j < |refs| && FoundUpTo(db, refs, j, missing)
    ensures done + refs[..j+1] == (done + refs[..j]) + [refs[j]]
    ensures FindsScope(db, refs[j]) ==> FoundUpTo(db, refs, j + 1, missing || !HasBucket(db, KeyOf(refs[j])))
    ensures AllFound(db, refs) ==> FindsScope(db, refs[j])
  {
    assert refs[..j+1] == refs[..j] + [refs[j]];
    FoundSnoc(db, refs[..j], refs[j]);
  }

  /** The next reference of a reservation. */
  method AddNext(db: Database, refs: seq<Fact>, j: nat, scopes: map<Id, ScopeLedgerCounters>,
                 buckets: map<BucketKey, BucketLedgerCounters>, ghost done: seq<Fact>, missingBucket: bool)
    returns (found: bool, missing: bool)
    requires db.Keyed() && KeysFor(db, scopes, buckets)
    requires j < |refs| && CountersHold(scopes, buckets, done + refs[..j]) && FoundUpTo(db, refs, j, missingBucket)
    modifies scopes.Values, buckets.Values
    ensures found ==> CountersHold(scopes, buckets, done + refs[..j+1]) && FoundUpTo(db, refs, j + 1, missing)
    ensures !found ==> !AllFound(db, refs)
  {
    PrefixSnoc(db, done, refs, j, missingBucket);
    found, missing := AddReference(db, refs[j], scopes, buckets, done + refs[..j]);
    missing := missingBucket || missing;
  }

  /** The scope references of one reservation, stopping at one that finds no scope of its type. */
  method AddReferences(db: Database, refs: seq<Fact>, scopes: map<Id, ScopeLedgerCounters>,
                       buckets: map<BucketKey, BucketLedgerCounters>, ghost done: seq<Fact>)
    returns (found: bool, missingBucket: bool)
    requires db.Keyed() && KeysFor(db, scopes, buckets) && CountersHold(scopes, buckets, done)
    modifies scopes.Values, buckets.Values
    ensures found <==> AllFound(db, refs)
    ensures found ==> CountersHold(scopes, buckets, done + refs)
    ensures found ==> (missingBucket <==> SomeMissing(db, refs))
  {
    missingBucket := false;
    found := true;
    assert done + refs[..0] == done && refs[..|refs|] == refs;
    for j := 0 to |refs|
      invariant CountersHold(scopes, buckets, done + refs[..j]) && FoundUpTo(db, refs, j, missingBucket)
    {
      found, missingBucket := AddNext(db, refs, j, scopes, buckets, done, missingBucket);
      if !found {
        return;
      }
    }
    found := true;
  }

  /** The facts of the first i reservations. */
  ghost function FactsOf(db: Database, i: nat): seq<Fact>
    requires i <= |db.ledger|
  {
    Facts(db.runs, db.ledger[..i])
  }

  ghost predicate LedgerUpTo(db: Database, i: nat, missing: bool)
    requires i <= |db.ledger|
  {
    AllFound(db, FactsOf(db, i)) && (missing <==> SomeMissing(db, FactsOf(db, i)))
  }

  lemma LedgerNext(db: Database, i: nat, missing: bool)
    requires i < |db.ledger| && LedgerUpTo(db, i, missing)
    ensures var refs := RefFacts(db.runs, db.ledger[i]);
            && FactsOf(db, i + 1) == FactsOf(db, i) + refs
            && (AllFound(db, refs) ==> LedgerUpTo(db, i + 1, missing || SomeMissing(db, refs)))
            && (AllFound(db, db.AllFacts()) ==> AllFound(db, refs))
  {
    FactsStep(db, i);
  }

  /** One reservation of the pass. */
  method AddReservation(db: Database, i: nat, scopes: map<Id, ScopeLedgerCounters>, buckets: map<BucketKey, BucketLedgerCounters>,
                        missingBucket: bool)
    returns (found: bool, missing: bool)
    requires db.Keyed() && KeysFor(db, scopes, buckets)
    requires i < |db.ledger| && CountersHold(scopes, buckets, FactsOf(db, i)) && LedgerUpTo(db, i, missingBucket)
    modifies scopes.Values, buckets.Values
    ensures found ==> CountersHold(scopes, buckets, FactsOf(db, i + 1)) && LedgerUpTo(db, i + 1, missing)
    ensures !found ==> !AllFound(db, db.AllFacts())
  {
    LedgerNext(db, i, missingBucket);
    found, missing := AddReferences(db, RefFacts(db.runs, db.ledger[i]), scopes, buckets, FactsOf(db, i));
    missing := missingBucket || missing;
  }

  /** One pass over the ledger. */
  method RebuildCounters(db: Database, scopes: map<Id, ScopeLedgerCounters>, buckets: map<BucketKey, BucketLedgerCounters>)
    returns (found: bool, missingBucket: bool)
    requires db.Keyed() && KeysFor(db, scopes, buckets) && CountersHold(scopes, buckets, [])
    modifies scopes.Values, buckets.Values
    ensures found <==> AllFound(db, db.AllFacts())
    ensures found ==> CountersHold(scopes, buckets, db.AllFacts())
    ensures found ==> (missingBucket <==> SomeMissing(db, db.AllFacts()))
  {
    missingBucket := false;
    found := true;
    assert FactsOf(db, 0) == [];
    assert db.ledger[..|db.ledger|] == db.ledger;
    for i := 0 to |db.ledger|
      invariant CountersHold(scopes, buckets, FactsOf(db, i)) && LedgerUpTo(db, i, missingBucket)
    {
      found, missingBucket := AddReservation(db, i, scopes, buckets, missingBucket);
      if !found {
        return;
      }
    }
    found := true;
  }

  method CompareScopes(db: Database, scopes: map<Id, ScopeLedgerCounters>) returns (same: bool)
    requires (forall id :: id in scopes <==> HasScope(db, id)) && ScopesHold(scopes, db.AllFacts())
    ensures same <==> ScopesAgree(db)
  {
    var k := 0;
    while k < |db.scopes|
      invariant 0 <= k <= |db.scopes|
      invariant forall n :: 0 <= n < k ==> db.scopes[n].counters == DerivedScope(db.AllFacts(), db.scopes[n].id)
    {
      assert HasScope(db, db.scopes[k].id);
      if db.scopes[k].counters != scopes[db.scopes[k].id].Values() {
        return false;
      }
      k := k + 1;
    }
    same := true;
  }

  method CompareBuckets(db: Database, buckets: map<BucketKey, BucketLedgerCounters>) returns (same: bool)
    requires (forall key :: key in buckets <==> HasBucket(db, key)) && BucketsHold(buckets, db.AllFacts())
    ensures same <==> BucketsAgree(db)
  {
    var k := 0;
    while k < |db.buckets|
      invariant 0 <= k <= |db.buckets|
      invariant forall n :: 0 <= n < k ==> db.buckets[n].counters == DerivedBucket(db.AllFacts(), db.buckets[n].key)
    {
      assert HasBucket(db, db.buckets[k].key);
      if db.buckets[k].counters != buckets[db.buckets[k].key].Values() {
        return false;
      }
      k := k + 1;
    }
    same := true;
  }

  /** Rebuild every counter in one pass over the ledger, then compare. */
  method ValidateMaterializations(db: Database) returns (v: Verdict)
    requires db.Keyed()
    ensures v == if !ScopesFound(db) || !ScopesAgree(db) then ScopeDrift
                 else if !BucketsFound(db) || !BucketsAgree(db) then BucketDrift
                 else Accepted
  {
    var scopes := NewScopeCounters(db);
    var buckets := NewBucketCounters(db);
    var found, missingBucket := RebuildCounters(db, scopes, buckets);
    if !found {
      return ScopeDrift;
    }
    var same := CompareScopes(db, scopes);
    if !same {
      return ScopeDrift;
    }
    if missingBucket {
      return BucketDrift;
    }
    same := CompareBuckets(db, buckets);
    v := if same then Accepted else BucketDrift;
  }

  // ----- The importer against the reconciliation query -----

  predicate Accepts(db: Database) { ScopesFound(db) && ScopesAgree(db) && BucketsFound(db) && BucketsAgree(db) }

  /**
   * The reconciliation query reports no drift on correctly typed references exactly
   * when the importer accepts and no stored row is unreferenced.
   */
  lemma AcceptanceIsNoDrift(db: Database)
    requires db.Keyed()
    ensures NoDrift(db) && KindsMatch(db) <==> Accepts(db) && AllReferenced(db)
  {
    if NoDrift(db) && KindsMatch(db) {
      forall f | f in db.AllFacts() ensures FindsScope(db, f) {
        var k :| 0 <= k < |db.scopes| && db.scopes[k].id == f.scope;
        assert db.scopes[k].kind == f.kind;
      }
    }
    if Accepts(db) {
      forall f, k | f in db.AllFacts() && 0 <= k < |db.scopes| && db.scopes[k].id == f.scope
        ensures db.scopes[k].kind == f.kind
      {
        assert FindsScope(db, f);
        var n :| 0 <= n < |db.scopes| && db.scopes[n].id == f.scope && db.scopes[n].kind == f.kind;
        assert n == k;
      }
      forall f | f in db.AllFacts() ensures HasScope(db, f.scope) {
        assert FindsScope(db, f);
      }
    }
  }
}
