/**
 * The provider-call ledger and the counters derived from it, as the reconciliation
 * query states them: one filtered aggregate per column, grouped by scope, and by
 * scope, policy and minute.
 */
module Ledger {
  import opened Prelude

  type Id = nat

  datatype State = Reserved | SendStarted | SettledActual | SettledConservative | ReleasedPreSend

  predicate Active(s: State) { s == Reserved || s == SendStarted }

  predicate Settled(s: State) { s == SettledActual || s == SettledConservative }

  predicate Consumed(s: State) { s == SendStarted || Settled(s) }

  /** Nullable amounts; cost is in units of 10^-8 USD, the ledger's column precision. */
  datatype Amounts = Amounts(input: Option<nat>, output: Option<nat>, cost: Option<nat>)

  datatype Reservation = Reservation(
    state: State,
    runId: Option<Id>,
    globalScope: Id,
    providerScope: Id,
    modelScope: Id,
    runScope: Option<Id>,
    policy: Id,
    window: int,
    reserved: Amounts,
    actual: Amounts)

  datatype ScopeType = Global | Provider | Model | Run

  /** The columns that are sums over the ledger. */
  datatype Column =
    | ActiveReservations | ReservedRequests | ReservedInput | ReservedOutput | ReservedCost
    | ConsumedRequests | ConsumedInput | ConsumedOutput | ConsumedCost

  function OrZero(x: Option<nat>): nat { if x.Some? then x.value else 0 }

  /** What one reservation adds to a column. */
  function Contribution(r: Reservation, c: Column): nat {
    match c
    case ActiveReservations => if Active(r.state) then 1 else 0
    case ReservedRequests => if r.state == Reserved then 1 else 0
    case ReservedInput => if Active(r.state) then OrZero(r.reserved.input) else 0
    case ReservedOutput => if Active(r.state) then OrZero(r.reserved.output) else 0
    case ReservedCost => if Active(r.state) then OrZero(r.reserved.cost) else 0
    case ConsumedRequests => if Consumed(r.state) then 1 else 0
    case ConsumedInput => if Settled(r.state) then OrZero(r.actual.input) else 0
    case ConsumedOutput => if Settled(r.state) then OrZero(r.actual.output) else 0
    case ConsumedCost => if Settled(r.state) then OrZero(r.actual.cost) else 0
  }

  // ----- Facts: one row per reservation and scope reference -----

  datatype Fact = Fact(scope: Id, kind: ScopeType, reservation: Reservation, explicitInput: bool)

  type Runs = map<Id, Option<nat>>

  /** The input reservation counts for overdraw only when the run set it, or there is no run. */
  predicate ExplicitInput(runs: Runs, r: Reservation) {
    r.runId == None || (r.runId.value in runs && runs[r.runId.value].Some?)
  }

  function RefFacts(runs: Runs, r: Reservation): (facts: seq<Fact>)
    ensures forall f :: f in facts ==> f.reservation == r && f.explicitInput == ExplicitInput(runs, r)
  {
    var e := ExplicitInput(runs, r);
    [Fact(r.globalScope, Global, r, e), Fact(r.providerScope, Provider, r, e), Fact(r.modelScope, Model, r, e)]
    + (if r.runScope.Some? then [Fact(r.runScope.value, Run, r, e)] else [])
  }

  function Facts(runs: Runs, ledger: seq<Reservation>): seq<Fact> {
    if ledger == [] then []
    else Facts(runs, ledger[..|ledger|-1]) + RefFacts(runs, ledger[|ledger|-1])
  }

  predicate Exceeds(actual: Option<nat>, reserved: Option<nat>) {
    actual.Some? && reserved.Some? && actual.value > reserved.value
  }

  /** A settled reservation whose actual amounts pass what was reserved. */
  predicate OverdrawnBy(r: Reservation, explicitInput: bool) {
    && Settled(r.state)
    && (|| (explicitInput && Exceeds(r.actual.input, r.reserved.input))
        || Exceeds(r.actual.output, r.reserved.output)
        || (explicitInput && Exceeds(r.actual.cost, r.reserved.cost)))
  }

  predicate Overdraws(f: Fact) { OverdrawnBy(f.reservation, f.explicitInput) }

  // ----- Aggregates -----

  type BucketKey = (Id, Id, int)

  function KeyOf(f: Fact): BucketKey { (f.scope, f.reservation.policy, f.reservation.window) }

  /** The groups that aggregates are taken over. */
  datatype Group = InScope(id: Id) | InBucket(key: BucketKey) | OfKind(kind: ScopeType)

  predicate Keeps(g: Group, f: Fact) {
    match g
    case InScope(id) => f.scope == id
    case InBucket(key) => KeyOf(f) == key
    case OfKind(kind) => f.kind == kind
  }

  /** Sum of a column over the facts of a group. */
  function Total(facts: seq<Fact>, g: Group, c: Column): nat {
    if facts == [] then 0
    else
      var last := facts[|facts|-1];
      Total(facts[..|facts|-1], g, c) + if Keeps(g, last) then Contribution(last.reservation, c) else 0
  }

  lemma TotalSnoc(facts: seq<Fact>, f: Fact, g: Group, c: Column)
    ensures Total(facts + [f], g, c) == Total(facts, g, c) + if Keeps(g, f) then Contribution(f.reservation, c) else 0
  {
    var all := facts + [f];
    assert all[..|all|-1] == facts && all[|all|-1] == f;
  }

  datatype ScopeCounters = ScopeCounters(
    activeReservations: nat, reservedRequests: nat, reservedInput: nat, reservedOutput: nat, reservedCost: nat,
    consumedRequests: nat, consumedInput: nat, consumedOutput: nat, consumedCost: nat, overdrawn: bool)

  datatype BucketCounters = BucketCounters(
    reservedRequests: nat, reservedInput: nat, reservedOutput: nat,
    consumedRequests: nat, consumedInput: nat, consumedOutput: nat)

  predicate ScopeHasFacts(facts: seq<Fact>, id: Id) { exists f :: f in facts && f.scope == id }

  predicate BucketHasFacts(facts: seq<Fact>, key: BucketKey) { exists f :: f in facts && KeyOf(f) == key }

  predicate ScopeOverdrawn(facts: seq<Fact>, id: Id) { exists f :: f in facts && f.scope == id && Overdraws(f) }

  function DerivedScope(facts: seq<Fact>, id: Id): ScopeCounters {
    var g := InScope(id);
    ScopeCounters(Total(facts, g, ActiveReservations), Total(facts, g, ReservedRequests), Total(facts, g, ReservedInput),
                  Total(facts, g, ReservedOutput), Total(facts, g, ReservedCost), Total(facts, g, ConsumedRequests),
                  Total(facts, g, ConsumedInput), Total(facts, g, ConsumedOutput), Total(facts, g, ConsumedCost),
                  ScopeOverdrawn(facts, id))
  }

  function DerivedBucket(facts: seq<Fact>, key: BucketKey): BucketCounters {
    var g := InBucket(key);
    BucketCounters(Total(facts, g, ReservedRequests), Total(facts, g, ReservedInput), Total(facts, g, ReservedOutput),
                   Total(facts, g, ConsumedRequests), Total(facts, g, ConsumedInput), Total(facts, g, ConsumedOutput))
  }

  function ScopeColumn(s: ScopeCounters, c: Column): nat {
    match c
    case ActiveReservations => s.activeReservations
    case ReservedRequests => s.reservedRequests
    case ReservedInput => s.reservedInput
    case ReservedOutput => s.reservedOutput
    case ReservedCost => s.reservedCost
    case ConsumedRequests => s.consumedRequests
    case ConsumedInput => s.consumedInput
    case ConsumedOutput => s.consumedOutput
    case ConsumedCost => s.consumedCost
  }

  // ----- The database -----

  datatype ScopeRow = ScopeRow(id: Id, kind: ScopeType, counters: ScopeCounters)

  datatype BucketRow = BucketRow(key: BucketKey, counters: BucketCounters)

  datatype Database = Database(scopes: seq<ScopeRow>, buckets: seq<BucketRow>, ledger: seq<Reservation>, runs: Runs)
  {
    /** The primary key of scopes and the unique constraint of minute buckets. */
    predicate Keyed() {
      && (forall i, j :: 0 <= i < j < |scopes| ==> scopes[i].id != scopes[j].id)
      && (forall i, j :: 0 <= i < j < |buckets| ==> buckets[i].key != buckets[j].key)
    }

    function AllFacts(): seq<Fact> { Facts(runs, ledger) }
  }

  predicate HasScope(db: Database, id: Id) { exists k :: 0 <= k < |db.scopes| && db.scopes[k].id == id }

  predicate HasBucket(db: Database, key: BucketKey) { exists k :: 0 <= k < |db.buckets| && db.buckets[k].key == key }

  /** No scope row is missing, extra or drifted. */
  predicate NoScopeDrift(db: Database) {
    && (forall f :: f in db.AllFacts() ==> HasScope(db, f.scope))
    && (forall k :: 0 <= k < |db.scopes| ==> ScopeHasFacts(db.AllFacts(), db.scopes[k].id))
    && (forall k :: 0 <= k < |db.scopes| && ScopeHasFacts(db.AllFacts(), db.scopes[k].id) ==>
          db.scopes[k].counters == DerivedScope(db.AllFacts(), db.scopes[k].id))
  }

  /** No minute row is missing, extra or drifted. */
  predicate NoMinuteDrift(db: Database) {
    && (forall f :: f in db.AllFacts() ==> HasBucket(db, KeyOf(f)))
    && (forall k :: 0 <= k < |db.buckets| ==> BucketHasFacts(db.AllFacts(), db.buckets[k].key))
    && (forall k :: 0 <= k < |db.buckets| && BucketHasFacts(db.AllFacts(), db.buckets[k].key) ==>
          db.buckets[k].counters == DerivedBucket(db.AllFacts(), db.buckets[k].key))
  }

  /** The reconciliation query reports six zeros. */
  predicate NoDrift(db: Database) { NoScopeDrift(db) && NoMinuteDrift(db) }

  /** Every reference that finds its scope finds one of the right type. */
  predicate KindsMatch(db: Database) {
    forall f, k :: f in db.AllFacts() && 0 <= k < |db.scopes| && db.scopes[k].id == f.scope ==> db.scopes[k].kind == f.kind
  }

  predicate AllReferenced(db: Database) {
    && (forall k :: 0 <= k < |db.scopes| ==> ScopeHasFacts(db.AllFacts(), db.scopes[k].id))
    && (forall k :: 0 <= k < |db.buckets| ==> BucketHasFacts(db.AllFacts(), db.buckets[k].key))
  }

  // ----- Sums over lists -----

  lemma {:induction false} TotalAppend(a: seq<Fact>, b: seq<Fact>, g: Group, c: Column)
    ensures Total(a + b, g, c) == Total(a, g, c) + Total(b, g, c)
    decreases |b|
  {
    if b == [] {
      assert a + b == a;
    } else {
      assert (a + b)[..|a + b| - 1] == a + b[..|b|-1];
      TotalAppend(a, b[..|b|-1], g, c);
    }
  }

  lemma {:induction false} TotalZero(facts: seq<Fact>, g: Group, c: Column)
    requires forall f :: f in facts ==> !Keeps(g, f)
    ensures Total(facts, g, c) == 0
  {
    if facts != [] {
      TotalZero(facts[..|facts|-1], g, c);
    }
  }

  lemma FactsSnoc(runs: Runs, ledger: seq<Reservation>)
    requires ledger != []
    ensures Facts(runs, ledger) == Facts(runs, ledger[..|ledger|-1]) + RefFacts(runs, ledger[|ledger|-1])
  {
  }

  lemma Associate<T>(a: seq<T>, b: seq<T>, c: seq<T>)
    ensures (a + b) + c == a + (b + c)
  {
  }

  lemma {:induction false} FactsAppend(runs: Runs, a: seq<Reservation>, b: seq<Reservation>)
    ensures Facts(runs, a + b) == Facts(runs, a) + Facts(runs, b)
    decreases |b|
  {
    if b == [] {
      assert a + b == a;
    } else {
      var init, last := b[..|b|-1], b[|b|-1];
      FactsAppend(runs, a, init);
      FactsSnoc(runs, b);
      FactsSnoc(runs, a + b);
      assert (a + b)[..|a + b| - 1] == a + init;
      Associate(Facts(runs, a), Facts(runs, init), RefFacts(runs, last));
    }
  }

  lemma FactsOne(runs: Runs, r: Reservation)
    ensures Facts(runs, [r]) == RefFacts(runs, r)
  {
    assert [r][..0] == [];
    assert Facts(runs, []) + RefFacts(runs, r) == RefFacts(runs, r);
  }
}
