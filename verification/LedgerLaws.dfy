/**
 * What one row of the ledger is worth: the amounts it adds to the counters of the
 * scopes and minutes it refers to, and when it marks them as overdrawn, in plain numbers.
 */
module LedgerLaws {
  import opened Prelude
  import opened Ledger
  import opened LedgerImport
  import opened LedgerConservation
  import A = AttemptLedger

  function Count(b: bool): nat { if b then 1 else 0 }

  /** How many of a row's references are to this scope. */
  function References(r: Reservation, id: Id): nat {
    Count(r.globalScope == id) + Count(r.providerScope == id) + Count(r.modelScope == id) + Count(r.runScope == Some(id))
  }

  function Amount(x: Option<nat>): nat {
    match x
    case None => 0
    case Some(n) => n
  }

  /** One row's worth in every column, state by state. */
  function Worth(r: Reservation): ScopeCounters {
    var input, output, cost := Amount(r.reserved.input), Amount(r.reserved.output), Amount(r.reserved.cost);
    match r.state
    case Reserved => ScopeCounters(1, 1, input, output, cost, 0, 0, 0, 0, false)
    case SendStarted => ScopeCounters(1, 0, input, output, cost, 1, 0, 0, 0, false)
    case ReleasedPreSend => ScopeCounters(0, 0, 0, 0, 0, 0, 0, 0, 0, false)
    case SettledActual => ScopeCounters(0, 0, 0, 0, 0, 1, Amount(r.actual.input), Amount(r.actual.output), Amount(r.actual.cost), false)
    case SettledConservative => ScopeCounters(0, 0, 0, 0, 0, 1, Amount(r.actual.input), Amount(r.actual.output), Amount(r.actual.cost), false)
  }

  /** Every column of every scope grows by a new row's worth, once for each of its references. */
  lemma RowAddsToScope(runs: Runs, ledger: seq<Reservation>, r: Reservation, id: Id, c: Column)
    ensures ScopeColumn(DerivedScope(Facts(runs, ledger + [r]), id), c) ==
            ScopeColumn(DerivedScope(Facts(runs, ledger), id), c) + References(r, id) * ScopeColumn(Worth(r), c)
  {
    TotalPush(runs, ledger, r, InScope(id), c);
    DerivedColumn(Facts(runs, ledger), id, c);
    DerivedColumn(Facts(runs, ledger + [r]), id, c);
    A.RefWeight(runs, r, InScope(id), c);
    ScopeWeight(r, id);
    WorthIsContribution(r, c);
  }

  lemma ScopeWeight(r: Reservation, id: Id)
    ensures A.Weight(r, InScope(id)) == References(r, id)
  {
  }

  lemma MinuteWeight(r: Reservation, id: Id, policy: Id, window: int)
    ensures A.Weight(r, InBucket((id, policy, window))) == if r.policy == policy && r.window == window then References(r, id) else 0
  {
  }

  lemma WorthIsContribution(r: Reservation, c: Column)
    ensures Contribution(r, c) == ScopeColumn(Worth(r), c)
  {
  }

  lemma MinuteColumnIsTotal(facts: seq<Fact>, key: BucketKey, c: Column)
    requires Minutely(c)
    ensures BucketColumn(DerivedBucket(facts, key), c) == Total(facts, InBucket(key), c)
  {
  }

  lemma TotalPush(runs: Runs, ledger: seq<Reservation>, r: Reservation, g: Group, c: Column)
    ensures Total(Facts(runs, ledger + [r]), g, c) == Total(Facts(runs, ledger), g, c) + Total(RefFacts(runs, r), g, c)
  {
    FactsPush(runs, ledger, r);
    TotalAppend(Facts(runs, ledger), RefFacts(runs, r), g, c);
  }

  /** A minute of a scope grows by it exactly when the row has that policy and window. */
  lemma RowAddsToMinute(runs: Runs, ledger: seq<Reservation>, r: Reservation, id: Id, policy: Id, window: int, c: Column)
    requires Minutely(c)
    ensures BucketColumn(DerivedBucket(Facts(runs, ledger + [r]), (id, policy, window)), c) ==
            BucketColumn(DerivedBucket(Facts(runs, ledger), (id, policy, window)), c)
            + if r.policy == policy && r.window == window then References(r, id) * ScopeColumn(Worth(r), c) else 0
  {
    var g := InBucket((id, policy, window));
    TotalPush(runs, ledger, r, g, c);
    A.RefWeight(runs, r, g, c);
    MinuteColumnIsTotal(Facts(runs, ledger), (id, policy, window), c);
    MinuteColumnIsTotal(Facts(runs, ledger + [r]), (id, policy, window), c);
    MinuteWeight(r, id, policy, window);
    WorthIsContribution(r, c);
  }

  // ----- Overdraw -----

  /** Both amounts are known and the first is greater by at least one. */
  predicate Passes(actual: Option<nat>, reserved: Option<nat>) {
    match (actual, reserved)
    case (Some(a), Some(b)) => a >= b + 1
    case _ => false
  }

  /** The run bounded its input, or there is no run. */
  predicate InputBounded(runs: Runs, r: Reservation) {
    match r.runId
    case None => true
    case Some(run) => run in runs && runs[run] != None
  }

  /** A settled row charged more than it reserved: output always counts, input and cost when the input was bounded. */
  predicate Overcharged(runs: Runs, r: Reservation) {
    && (r.state == SettledActual || r.state == SettledConservative)
    && (|| Passes(r.actual.output, r.reserved.output)
        || (InputBounded(runs, r) && (Passes(r.actual.input, r.reserved.input) || Passes(r.actual.cost, r.reserved.cost))))
  }

  lemma OverchargedMeans(runs: Runs, r: Reservation)
    ensures Overcharged(runs, r) <==> OverdrawnBy(r, ExplicitInput(runs, r))
    ensures InputBounded(runs, r) <==> ExplicitInput(runs, r)
  {
  }

  /** A scope is overdrawn exactly when a row that refers to it was overcharged. */
  lemma OverdrawnIff(runs: Runs, ledger: seq<Reservation>, id: Id)
    ensures DerivedScope(Facts(runs, ledger), id).overdrawn <==>
            exists r :: r in ledger && References(r, id) > 0 && Overcharged(runs, r)
  {
    var db := Database([], [], ledger, runs);
    MigrationAgrees(db, id);
    forall r | r in ledger
      ensures Overcharged(runs, r) <==> OverdrawnBy(r, ExplicitInput(runs, r))
    {
      OverchargedMeans(runs, r);
    }
    assert forall r :: References(r, id) > 0 <==> ReferencesScope(r, id);
  }

  /** A new row marks exactly the scopes it refers to, exactly when it is overcharged; the others keep their flag. */
  lemma RowOverdraws(runs: Runs, ledger: seq<Reservation>, r: Reservation, id: Id)
    ensures DerivedScope(Facts(runs, ledger + [r]), id).overdrawn <==>
            DerivedScope(Facts(runs, ledger), id).overdrawn || (References(r, id) > 0 && Overcharged(runs, r))
  {
    OverdrawnIff(runs, ledger, id);
    OverdrawnIff(runs, ledger + [r], id);
    assert forall x :: x in ledger + [r] <==> x in ledger || x == r;
  }

  predicate AtMost(actual: Option<nat>, reserved: Option<nat>) {
    match (actual, reserved)
    case (Some(a), Some(b)) => a <= b
    case _ => true
  }

  /** A row charged at most what it reserved, to the last unit, leaves every flag as it was. */
  lemma WithinReservation(runs: Runs, ledger: seq<Reservation>, r: Reservation, id: Id)
    requires AtMost(r.actual.input, r.reserved.input) && AtMost(r.actual.output, r.reserved.output) && AtMost(r.actual.cost, r.reserved.cost)
    ensures DerivedScope(Facts(runs, ledger + [r]), id).overdrawn == DerivedScope(Facts(runs, ledger), id).overdrawn
  {
    RowOverdraws(runs, ledger, r, id);
    assert !Passes(r.actual.input, r.reserved.input) && !Passes(r.actual.output, r.reserved.output) && !Passes(r.actual.cost, r.reserved.cost);
  }

  /** Settling conservatively at what was reserved never overdraws. */
  lemma ConservativeNeverOverdraws(runs: Runs, ledger: seq<Reservation>, r: Reservation, id: Id)
    requires r.actual == r.reserved
    ensures DerivedScope(Facts(runs, ledger + [r]), id).overdrawn == DerivedScope(Facts(runs, ledger), id).overdrawn
  {
    WithinReservation(runs, ledger, r, id);
  }

  /**
   * The flag in a source database is accepted exactly when it says whether some row that
   * refers to the scope was overcharged, the numbers being right.
   */
  lemma AcceptedFlag(db: Database, k: nat)
    requires k < |db.scopes| && ScopesAgree(db)
    ensures db.scopes[k].counters.overdrawn <==>
            exists r :: r in db.ledger && References(r, db.scopes[k].id) > 0 && Overcharged(db.runs, r)
  {
    OverdrawnIff(db.runs, db.ledger, db.scopes[k].id);
  }

  /** Downgrading counts every input as bounded. */
  lemma MigrationFlag(db: Database, id: Id)
    ensures MigrationOverdrawn(db, id, true) <==> exists r :: r in db.ledger && References(r, id) > 0 && Overcharged(db.runs, r)
    ensures MigrationOverdrawn(db, id, false) <==> exists r :: r in db.ledger && References(r, id) > 0 && Overcharged(map[], r.(runId := None))
  {
    forall r | r in db.ledger
      ensures Overcharged(db.runs, r) <==> OverdrawnBy(r, ExplicitInput(db.runs, r))
      ensures Overcharged(map[], r.(runId := None)) <==> OverdrawnBy(r, true)
    {
      OverchargedMeans(db.runs, r);
      OverchargedMeans(map[], r.(runId := None));
    }
    assert forall r :: References(r, id) > 0 <==> ReferencesScope(r, id);
  }
}
