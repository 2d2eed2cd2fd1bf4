/**
 * The adapter's calls written to the ledger: what each move does to the derived
 * counters, and what a whole run leaves behind.
 */
module AttemptLedger {
  import opened Prelude
  import L = Ledger
  import opened Attempts

  /** What the controller records for attempt n: the row it reserves, the minute its send starts in, and the amounts it settles with. */
  datatype Book = Book(template: nat -> L.Reservation, sendWindow: nat -> int, charge: nat -> L.Amounts)

  function StateOf(d: Disposition): L.State {
    match d
    case ReleasedPreSend => L.ReleasedPreSend
    case SettledActual => L.SettledActual
    case SettledConservative => L.SettledConservative
  }

  const NOTHING := L.Amounts(None, None, None)

  function ReservedRow(book: Book, n: nat): L.Reservation { book.template(n).(state := L.Reserved, actual := NOTHING) }

  function FinishedRow(book: Book, n: nat, r: L.Reservation, d: Disposition): L.Reservation {
    r.(state := StateOf(d), actual := if d == ReleasedPreSend then NOTHING else book.charge(n))
  }

  /** A committed transition changes the run's newest row. */
  function Apply(book: Book, ledger: seq<L.Reservation>, call: Call): seq<L.Reservation> {
    var last := |ledger| - 1;
    match call
    case Reserve(n, committed, _) => if committed then ledger + [ReservedRow(book, n)] else ledger
    case MarkSend(n, committed, _) =>
      if committed && last >= 0
      then ledger[last := ledger[last].(state := L.SendStarted, window := book.sendWindow(n))] else ledger
    case Finish(n, d, _, _, committed, _) =>
      if committed && last >= 0 then ledger[last := FinishedRow(book, n, ledger[last], d)] else ledger
    case Send(_) => ledger
    case Sleep(_) => ledger
  }

  function ApplyAll(book: Book, ledger: seq<L.Reservation>, calls: seq<Call>): seq<L.Reservation>
    decreases |calls|
  {
    if calls == [] then ledger else ApplyAll(book, Apply(book, ledger, calls[0]), calls[1..])
  }

  lemma {:induction false} ApplyAppend(book: Book, ledger: seq<L.Reservation>, a: seq<Call>, b: seq<Call>)
    ensures ApplyAll(book, ledger, a + b) == ApplyAll(book, ApplyAll(book, ledger, a), b)
    decreases |a|
  {
    if a == [] {
      assert a + b == b;
    } else {
      assert (a + b)[0] == a[0] && (a + b)[1..] == a[1..] + b;
      ApplyAppend(book, Apply(book, ledger, a[0]), a[1..], b);
    }
  }

  // ----- Moves of one row -----

  /** Replacing a row changes each total by the difference of the two rows' references. */
  lemma TotalUpdate(runs: L.Runs, ledger: seq<L.Reservation>, i: nat, r: L.Reservation, g: L.Group, c: L.Column)
    requires i < |ledger|
    ensures L.Total(L.Facts(runs, ledger[i := r]), g, c) + L.Total(L.RefFacts(runs, ledger[i]), g, c) ==
            L.Total(L.Facts(runs, ledger), g, c) + L.Total(L.RefFacts(runs, r), g, c)
  {
    SplitTotal(runs, ledger, i, g, c);
    SplitTotal(runs, ledger[i := r], i, g, c);
    assert ledger[i := r][..i] == ledger[..i] && ledger[i := r][i+1..] == ledger[i+1..];
  }

  lemma SplitTotal(runs: L.Runs, ledger: seq<L.Reservation>, i: nat, g: L.Group, c: L.Column)
    requires i < |ledger|
    ensures L.Total(L.Facts(runs, ledger), g, c) ==
            L.Total(L.Facts(runs, ledger[..i]), g, c) + L.Total(L.RefFacts(runs, ledger[i]), g, c)
            + L.Total(L.Facts(runs, ledger[i+1..]), g, c)
  {
    assert ledger == ledger[..i] + ([ledger[i]] + ledger[i+1..]);
    L.FactsAppend(runs, ledger[..i], [ledger[i]] + ledger[i+1..]);
    L.FactsAppend(runs, [ledger[i]], ledger[i+1..]);
    L.FactsOne(runs, ledger[i]);
    L.TotalAppend(L.Facts(runs, ledger[..i]), L.RefFacts(runs, ledger[i]) + L.Facts(runs, ledger[i+1..]), g, c);
    L.TotalAppend(L.RefFacts(runs, ledger[i]), L.Facts(runs, ledger[i+1..]), g, c);
  }

  /** How often a reservation refers to a group: its weight there. */
  function Weight(r: L.Reservation, g: L.Group): nat {
    If(L.Keeps(g, L.Fact(r.globalScope, L.Global, r, false)), 1) + If(L.Keeps(g, L.Fact(r.providerScope, L.Provider, r, false)), 1)
    + If(L.Keeps(g, L.Fact(r.modelScope, L.Model, r, false)), 1) + If(RunKept(r, g), 1)
  }

  predicate RunKept(r: L.Reservation, g: L.Group) { r.runScope.Some? && L.Keeps(g, L.Fact(r.runScope.value, L.Run, r, false)) }

  function If(b: bool, x: nat): nat { if b then x else 0 }

  lemma ThreeTotal(a: L.Fact, b: L.Fact, d: L.Fact, g: L.Group, c: L.Column)
    ensures L.Total([a, b, d], g, c) ==
            If(L.Keeps(g, a), L.Contribution(a.reservation, c)) + If(L.Keeps(g, b), L.Contribution(b.reservation, c))
            + If(L.Keeps(g, d), L.Contribution(d.reservation, c))
  {
    L.TotalSnoc([], a, g, c);
    L.TotalSnoc([a], b, g, c);
    L.TotalSnoc([a, b], d, g, c);
    assert [] + [a] == [a] && [a] + [b] == [a, b] && [a, b] + [d] == [a, b, d];
  }

  lemma RefSum(runs: L.Runs, r: L.Reservation, g: L.Group, c: L.Column)
    ensures var x := L.Contribution(r, c);
            L.Total(L.RefFacts(runs, r), g, c) ==
            If(L.Keeps(g, L.Fact(r.globalScope, L.Global, r, false)), x) + If(L.Keeps(g, L.Fact(r.providerScope, L.Provider, r, false)), x)
            + If(L.Keeps(g, L.Fact(r.modelScope, L.Model, r, false)), x) + If(RunKept(r, g), x)
  {
    var e := L.ExplicitInput(runs, r);
    var a, b, d := L.Fact(r.globalScope, L.Global, r, e), L.Fact(r.providerScope, L.Provider, r, e), L.Fact(r.modelScope, L.Model, r, e);
    var three := [a, b, d];
    ThreeTotal(a, b, d, g, c);
    if r.runScope.Some? {
      L.TotalSnoc(three, L.Fact(r.runScope.value, L.Run, r, e), g, c);
    } else {
      assert L.RefFacts(runs, r) == three;
    }
  }

  lemma Four(a: bool, b: bool, c: bool, d: bool, x: nat)
    ensures (If(a, 1) + If(b, 1) + If(c, 1) + If(d, 1)) * x == If(a, x) + If(b, x) + If(c, x) + If(d, x)
  {
    assert If(a, 1) * x == If(a, x) && If(b, 1) * x == If(b, x) && If(c, 1) * x == If(c, x) && If(d, 1) * x == If(d, x);
  }

  lemma RefWeight(runs: L.Runs, r: L.Reservation, g: L.Group, c: L.Column)
    ensures L.Total(L.RefFacts(runs, r), g, c) == Weight(r, g) * L.Contribution(r, c)
  {
    RefSum(runs, r, g, c);
    Four(L.Keeps(g, L.Fact(r.globalScope, L.Global, r, false)), L.Keeps(g, L.Fact(r.providerScope, L.Provider, r, false)),
         L.Keeps(g, L.Fact(r.modelScope, L.Model, r, false)), RunKept(r, g), L.Contribution(r, c));
  }

  /** The ledger's legal moves. */
  predicate LegalMove(from: L.State, next: L.State) {
    (from == L.Reserved && (next == L.SendStarted || next == L.ReleasedPreSend)) || (from == L.SendStarted && L.Settled(next))
  }

  /**
   * The fixed effect of each legal move on a column: starting a send turns a reserved
   * request into a consumed one and keeps what is reserved; releasing gives everything
   * back; settling gives the reservation back and charges the actual amounts.
   */
  function Effect(r: L.Reservation, next: L.State, actual: L.Amounts, c: L.Column): int {
    if next == L.SendStarted then
      if c == L.ReservedRequests then -1 else if c == L.ConsumedRequests then 1 else 0
    else if c == L.ActiveReservations then -1
    else if c == L.ReservedRequests then (if r.state == L.Reserved then -1 else 0)
    else if c == L.ReservedInput then 0 - L.OrZero(r.reserved.input)
    else if c == L.ReservedOutput then 0 - L.OrZero(r.reserved.output)
    else if c == L.ReservedCost then 0 - L.OrZero(r.reserved.cost)
    else if c == L.ConsumedRequests || !L.Settled(next) then 0
    else if c == L.ConsumedInput then L.OrZero(actual.input)
    else if c == L.ConsumedOutput then L.OrZero(actual.output)
    else L.OrZero(actual.cost)
  }

  lemma EffectIsDifference(r: L.Reservation, next: L.State, actual: L.Amounts, c: L.Column)
    requires LegalMove(r.state, next)
    ensures L.Contribution(r.(state := next, actual := actual), c) - L.Contribution(r, c) == Effect(r, next, actual, c)
  {
  }

  function Moved(r: L.Reservation, next: L.State, actual: L.Amounts, window: int): L.Reservation {
    r.(state := next, actual := actual, window := window)
  }

  /** The window only matters to minutes. */
  lemma SameWeight(r: L.Reservation, next: L.State, actual: L.Amounts, window: int, g: L.Group)
    requires g.InBucket? ==> window == r.window
    ensures Weight(Moved(r, next, actual, window), g) == Weight(r, g)
  {
  }

  /**
   * A move changes every counter by its effect, once per reference: the counters of
   * scopes and levels always, those of minutes when the row stays in its minute.
   */
  lemma MoveDelta(runs: L.Runs, ledger: seq<L.Reservation>, i: nat, next: L.State, actual: L.Amounts, window: int, g: L.Group, c: L.Column)
    requires i < |ledger| && LegalMove(ledger[i].state, next) && (g.InBucket? ==> window == ledger[i].window)
    ensures var moved := Moved(ledger[i], next, actual, window);
            L.Total(L.Facts(runs, ledger[i := moved]), g, c) ==
            L.Total(L.Facts(runs, ledger), g, c) + Weight(ledger[i], g) * Effect(ledger[i], next, actual, c)
  {
    TotalUpdate(runs, ledger, i, Moved(ledger[i], next, actual, window), g, c);
    RefDelta(runs, ledger[i], next, actual, window, g, c);
  }

  lemma RefDelta(runs: L.Runs, r: L.Reservation, next: L.State, actual: L.Amounts, window: int, g: L.Group, c: L.Column)
    requires LegalMove(r.state, next) && (g.InBucket? ==> window == r.window)
    ensures L.Total(L.RefFacts(runs, Moved(r, next, actual, window)), g, c) ==
            L.Total(L.RefFacts(runs, r), g, c) + Weight(r, g) * Effect(r, next, actual, c)
  {
    var s := Moved(r, next, actual, window);
    RefWeight(runs, r, g, c);
    RefWeight(runs, s, g, c);
    SameWeight(r, next, actual, window, g);
    EffectIsDifference(r, next, actual, c);
    Spread(Weight(r, g), L.Contribution(s, c), L.Contribution(r, c));
  }

  lemma Spread(w: nat, a: nat, b: nat)
    ensures w * a - w * b == w * (a - b)
  {
  }

  /** The columns that are also kept by the minute. */
  predicate MinuteColumn(c: L.Column) { !c.ActiveReservations? && !c.ReservedCost? && !c.ConsumedCost? }

  /** What a send that starts takes from the minute of its reservation. */
  function Leaves(r: L.Reservation, c: L.Column): nat {
    match c
    case ReservedRequests => 1
    case ReservedInput => L.OrZero(r.reserved.input)
    case ReservedOutput => L.OrZero(r.reserved.output)
    case _ => 0
  }

  /** What it brings to the minute in which it starts: a consumed request, and what stays reserved. */
  function Arrives(r: L.Reservation, c: L.Column): nat {
    match c
    case ConsumedRequests => 1
    case ReservedInput => L.OrZero(r.reserved.input)
    case ReservedOutput => L.OrZero(r.reserved.output)
    case _ => 0
  }

  /** Starting a send carries the reservation over from its minute to that of the send. */
  lemma StartCarriesOver(runs: L.Runs, ledger: seq<L.Reservation>, i: nat, window: int, key: L.BucketKey, c: L.Column)
    requires i < |ledger| && ledger[i].state == L.Reserved && MinuteColumn(c)
    ensures var r, g := ledger[i], L.InBucket(key);
            var moved := Moved(r, L.SendStarted, r.actual, window);
            L.Total(L.Facts(runs, ledger[i := moved]), g, c) ==
            L.Total(L.Facts(runs, ledger), g, c) - Weight(r, g) * Leaves(r, c) + Weight(moved, g) * Arrives(r, c)
  {
    var r := ledger[i];
    var moved := Moved(r, L.SendStarted, r.actual, window);
    TotalUpdate(runs, ledger, i, moved, L.InBucket(key), c);
    RefWeight(runs, r, L.InBucket(key), c);
    RefWeight(runs, moved, L.InBucket(key), c);
    assert L.Contribution(r, c) == Leaves(r, c) && L.Contribution(moved, c) == Arrives(r, c);
  }

  // ----- What one attempt leaves in the ledger -----

  /** The state an attempt leaves its row in, or None when it left no row. */
  function FinalState(env: Env): Option<L.State> {
    if env.reserve.ReserveRaised? then (if env.reserve.committed then Some(L.Reserved) else None)
    else
      match env.mark
      case MarkCancelled(committed) => Some(if committed then L.SendStarted else L.Reserved)
      case MarkUnknown(committed) => Some(if committed then L.SendStarted else L.Reserved)
      case MarkRaised => Some(if Took(env.finish) then L.ReleasedPreSend else L.Reserved)
      case MarkedStarted =>
        if !Took(env.finish) then Some(L.SendStarted)
        else if env.send.Responded? && env.send.usage.Complete() then Some(L.SettledActual)
        else Some(L.SettledConservative)
  }

  function LeftRow(book: Book, n: nat, env: Env): seq<L.Reservation> {
    match FinalState(env)
    case None => []
    case Some(state) => [LeftAs(book, n, state)]
  }

  /** A row whose send has started is in the minute of its send. */
  function LeftAs(book: Book, n: nat, state: L.State): L.Reservation {
    Moved(book.template(n), state, if L.Settled(state) then book.charge(n) else NOTHING,
          if L.Consumed(state) then book.sendWindow(n) else book.template(n).window)
  }

  lemma ApplyOne(book: Book, ledger: seq<L.Reservation>, call: Call)
    ensures ApplyAll(book, ledger, [call]) == Apply(book, ledger, call)
  {
    assert [call][1..] == [];
  }

  lemma SettleEffect(book: Book, maxRetries: nat, n: nat, env: Env, ledger: seq<L.Reservation>, r: L.Reservation)
    ensures ApplyAll(book, ledger + [r], AfterSend(true, maxRetries, n, env).0) ==
            if !Took(env.finish) then ledger + [r]
            else ledger + [FinishedRow(book, n, r, if env.send.Responded? && env.send.usage.Complete() then SettledActual else SettledConservative)]
  {
    var calls := AfterSend(true, maxRetries, n, env).0;
    var rows := ledger + [r];
    var settled := Apply(book, rows, calls[0]);
    assert rows[|rows|-1] == r;
    assert forall x :: rows[|rows|-1 := x] == ledger + [x];
    if |calls| == 1 {
      ApplyOne(book, rows, calls[0]);
    } else {
      assert calls == [calls[0]] + [Sleep(n)];
      ApplyAppend(book, rows, [calls[0]], [Sleep(n)]);
      ApplyOne(book, rows, calls[0]);
      ApplyOne(book, settled, Sleep(n));
    }
  }

  lemma AttemptEffect(book: Book, maxRetries: nat, n: nat, env: Env, ledger: seq<L.Reservation>)
    ensures ApplyAll(book, ledger, Attempt(true, maxRetries, n, env).0) == ledger + LeftRow(book, n, env)
  {
    var calls := Attempt(true, maxRetries, n, env).0;
    var head, tail := calls[0], calls[1..];
    assert calls == [head] + tail;
    ApplyAppend(book, ledger, [head], tail);
    ApplyOne(book, ledger, head);
    assert ledger + [] == ledger;
    if env.reserve.Granted? {
      GrantedEffect(book, maxRetries, n, env, ledger);
    }
  }

  lemma ReplaceLast(ledger: seq<L.Reservation>, r: L.Reservation)
    ensures var rows := ledger + [r];
            rows[|rows|-1] == r && forall x :: rows[|rows|-1 := x] == ledger + [x]
  {
  }

  /** The calls after a granted reservation, over the row it inserted. */
  lemma GrantedEffect(book: Book, maxRetries: nat, n: nat, env: Env, ledger: seq<L.Reservation>)
    requires env.reserve.Granted?
    ensures var tail := Attempt(true, maxRetries, n, env).0[1..];
            ApplyAll(book, ledger + [ReservedRow(book, n)], tail) == ledger + LeftRow(book, n, env)
  {
    var r := ReservedRow(book, n);
    var rows, tail := ledger + [r], Attempt(true, maxRetries, n, env).0[1..];
    ReplaceLast(ledger, r);
    assert tail == [tail[0]] + tail[1..];
    ApplyAppend(book, rows, [tail[0]], tail[1..]);
    ApplyOne(book, rows, tail[0]);
    if env.mark.MarkedStarted? {
      StartedEffect(book, maxRetries, n, env, ledger);
    } else if env.mark.MarkRaised? {
      ApplyOne(book, rows, tail[1]);
      assert tail[1..] == [tail[1]];
    }
  }

  lemma StartedEffect(book: Book, maxRetries: nat, n: nat, env: Env, ledger: seq<L.Reservation>)
    requires env.reserve.Granted? && env.mark.MarkedStarted?
    ensures var rows := ledger + [ReservedRow(book, n).(state := L.SendStarted, window := book.sendWindow(n))];
            ApplyAll(book, rows, Attempt(true, maxRetries, n, env).0[2..]) == ledger + LeftRow(book, n, env)
  {
    var started := ReservedRow(book, n).(state := L.SendStarted, window := book.sendWindow(n));
    var after := AfterSend(true, maxRetries, n, env).0;
    assert Attempt(true, maxRetries, n, env).0[2..] == [Send(n)] + after;
    ApplyAppend(book, ledger + [started], [Send(n)], after);
    ApplyOne(book, ledger + [started], Send(n));
    SettleEffect(book, maxRetries, n, env, ledger, started);
  }

  // ----- What a run leaves in the ledger -----

  function NewRows(cfg: Config, envs: nat -> Env, book: Book, n: nat): seq<L.Reservation>
    requires n <= cfg.maxRetries + 2
    decreases cfg.maxRetries + 2 - n
  {
    if n > cfg.maxRetries + 1 then []
    else
      LeftRow(book, n, envs(n))
      + if Attempt(cfg.controlled, cfg.maxRetries, n, envs(n)).1.Retry? then NewRows(cfg, envs, book, n + 1) else []
  }

  lemma Compose(book: Book, ledger: seq<L.Reservation>, calls: seq<Call>, row: seq<L.Reservation>,
                later: seq<Call>, rest: seq<L.Reservation>)
    requires ApplyAll(book, ledger, calls) == ledger + row
    requires ApplyAll(book, ledger + row, later) == (ledger + row) + rest
    ensures ApplyAll(book, ledger, calls + later) == ledger + (row + rest)
  {
    ApplyAppend(book, ledger, calls, later);
    L.Associate(ledger, row, rest);
  }

  /** A run only appends rows, one per attempt that reserved. */
  lemma {:induction false} RunAppends(cfg: Config, envs: nat -> Env, book: Book, n: nat, ledger: seq<L.Reservation>)
    requires cfg.controlled && n <= cfg.maxRetries + 2
    ensures ApplyAll(book, ledger, GenerateFrom(cfg, envs, n).0) == ledger + NewRows(cfg, envs, book, n)
    decreases cfg.maxRetries + 2 - n
  {
    if n > cfg.maxRetries + 1 {
      assert ledger + [] == ledger;
    } else {
      AttemptEffect(book, cfg.maxRetries, n, envs(n), ledger);
      var (calls, verdict) := Attempt(cfg.controlled, cfg.maxRetries, n, envs(n));
      var row := LeftRow(book, n, envs(n));
      if verdict.Retry? {
        RunAppends(cfg, envs, book, n + 1, ledger + row);
        Compose(book, ledger, calls, row, GenerateFrom(cfg, envs, n + 1).0, NewRows(cfg, envs, book, n + 1));
      } else {
        assert row + [] == row;
      }
    }
  }

  lemma RetriedIsSettled(maxRetries: nat, n: nat, env: Env)
    requires Attempt(true, maxRetries, n, env).1.Retry?
    ensures FinalState(env) == Some(L.SettledConservative) && n <= maxRetries
  {
  }

  /** Every row but the newest is settled conservatively. */
  predicate SettledButLast(rows: seq<L.Reservation>) {
    forall k :: 0 <= k < |rows| - 1 ==> rows[k].state == L.SettledConservative
  }

  lemma PrependSettled(first: L.Reservation, rest: seq<L.Reservation>)
    requires first.state == L.SettledConservative && SettledButLast(rest)
    ensures SettledButLast([first] + rest)
  {
    var rows := [first] + rest;
    assert forall k :: 0 < k < |rows| ==> rows[k] == rest[k - 1];
  }

  /** Rows of attempts that were retried are settled conservatively; only the newest row can be left active. */
  lemma {:induction false} OnlyLastMayBeActive(cfg: Config, envs: nat -> Env, book: Book, n: nat)
    requires cfg.controlled && n <= cfg.maxRetries + 2
    ensures SettledButLast(NewRows(cfg, envs, book, n))
    decreases cfg.maxRetries + 2 - n
  {
    if n <= cfg.maxRetries + 1 {
      var row := LeftRow(book, n, envs(n));
      if Attempt(true, cfg.maxRetries, n, envs(n)).1.Retry? {
        RetriedIsSettled(cfg.maxRetries, n, envs(n));
        OnlyLastMayBeActive(cfg, envs, book, n + 1);
        assert row == [row[0]];
        PrependSettled(row[0], NewRows(cfg, envs, book, n + 1));
      }
    }
  }

  function Sends(calls: seq<Call>): nat {
    if calls == [] then 0 else (if calls[0].Send? then 1 else 0) + Sends(calls[1..])
  }

  predicate NoneActive(rows: seq<L.Reservation>) { forall k :: 0 <= k < |rows| ==> !L.Active(rows[k].state) }

  function ConsumedCount(rows: seq<L.Reservation>): nat {
    if rows == [] then 0 else (if L.Consumed(rows[0].state) then 1 else 0) + ConsumedCount(rows[1..])
  }

  /** The row of an attempt that was sent, as far as groups can tell. */
  function SentRow(book: Book, n: nat): L.Reservation { book.template(n).(window := book.sendWindow(n)) }

  /** The references to a group of the attempts that were sent. */
  function SentTo(book: Book, calls: seq<Call>, g: L.Group): nat {
    if calls == [] then 0
    else (if calls[0].Send? then Weight(SentRow(book, calls[0].ordinal), g) else 0) + SentTo(book, calls[1..], g)
  }

  lemma {:induction false} SentAppend(book: Book, a: seq<Call>, b: seq<Call>, g: L.Group)
    ensures SentTo(book, a + b, g) == SentTo(book, a, g) + SentTo(book, b, g)
    decreases |a|
  {
    if a == [] {
      assert a + b == b;
    } else {
      assert (a + b)[0] == a[0] && (a + b)[1..] == a[1..] + b;
      SentAppend(book, a[1..], b, g);
    }
  }

  /** When all attempts weigh the same in a group, what it is sent is that often the number of sends. */
  lemma {:induction false} SentAlike(book: Book, calls: seq<Call>, g: L.Group, w: nat)
    requires forall n: nat :: Weight(SentRow(book, n), g) == w
    ensures SentTo(book, calls, g) == w * Sends(calls)
    decreases |calls|
  {
    if calls != [] {
      SentAlike(book, calls[1..], g, w);
      OneMore(w, if calls[0].Send? then 1 else 0, Sends(calls[1..]));
    }
  }

  /** The references to a group of the consumed rows. */
  function ConsumedIn(rows: seq<L.Reservation>, g: L.Group): nat {
    if rows == [] then 0 else If(L.Consumed(rows[0].state), Weight(rows[0], g)) + ConsumedIn(rows[1..], g)
  }

  lemma AttemptSends(book: Book, maxRetries: nat, n: nat, env: Env, g: L.Group)
    requires NoneActive(LeftRow(book, n, env))
    ensures SentTo(book, Attempt(true, maxRetries, n, env).0, g) == ConsumedIn(LeftRow(book, n, env), g)
  {
    var calls := Attempt(true, maxRetries, n, env).0;
    var row := LeftRow(book, n, env);
    assert row != [] ==> row[0].state == FinalState(env).value && row[1..] == [];
    if env.reserve.Granted? && env.mark.MarkedStarted? {
      SentOnce(book, maxRetries, n, env, g);
      SameWeight(SentRow(book, n), row[0].state, row[0].actual, book.sendWindow(n), g);
      assert row[0] == Moved(SentRow(book, n), row[0].state, row[0].actual, book.sendWindow(n));
    } else {
      NoSends(book, calls, g);
    }
  }

  lemma SentOnce(book: Book, maxRetries: nat, n: nat, env: Env, g: L.Group)
    requires env.reserve.Granted? && env.mark.MarkedStarted?
    ensures SentTo(book, Attempt(true, maxRetries, n, env).0, g) == Weight(SentRow(book, n), g)
  {
    var calls := Attempt(true, maxRetries, n, env).0;
    var after := AfterSend(true, maxRetries, n, env).0;
    var opening := [Reserve(n, true, true), MarkSend(n, true, true)];
    assert calls == opening + ([Send(n)] + after);
    SentAppend(book, opening, [Send(n)] + after, g);
    NoSends(book, opening, g);
    SentFirst(book, n, after, g);
    NothingSentAfter(book, maxRetries, n, env, g);
  }

  lemma NothingSentAfter(book: Book, maxRetries: nat, n: nat, env: Env, g: L.Group)
    ensures SentTo(book, AfterSend(true, maxRetries, n, env).0, g) == 0
  {
    NoSends(book, AfterSend(true, maxRetries, n, env).0, g);
  }

  lemma SentFirst(book: Book, n: nat, after: seq<Call>, g: L.Group)
    ensures SentTo(book, [Send(n)] + after, g) == Weight(SentRow(book, n), g) + SentTo(book, after, g)
  {
    var calls := [Send(n)] + after;
    assert calls[0] == Send(n) && calls[1..] == after;
  }

  lemma {:induction false} NoSends(book: Book, calls: seq<Call>, g: L.Group)
    requires forall c :: c in calls ==> !c.Send?
    ensures SentTo(book, calls, g) == 0
    decreases |calls|
  {
    if calls != [] {
      NoSends(book, calls[1..], g);
    }
  }

  lemma {:induction false} ConsumedAppend(a: seq<L.Reservation>, b: seq<L.Reservation>, g: L.Group)
    ensures ConsumedIn(a + b, g) == ConsumedIn(a, g) + ConsumedIn(b, g)
    decreases |a|
  {
    if a == [] {
      assert a + b == b;
    } else {
      assert (a + b)[0] == a[0] && (a + b)[1..] == a[1..] + b;
      ConsumedAppend(a[1..], b, g);
    }
  }

  lemma NoneActiveSplit(a: seq<L.Reservation>, b: seq<L.Reservation>)
    ensures NoneActive(a + b) <==> NoneActive(a) && NoneActive(b)
  {
    var s := a + b;
    if NoneActive(s) {
      assert forall k :: 0 <= k < |a| ==> a[k] == s[k];
      assert forall k :: 0 <= k < |b| ==> b[k] == s[|a| + k];
    }
  }

  /** Without an open permit, what a group's consumed rows refer to is what was sent to it. */
  lemma {:induction false} RunSends(cfg: Config, envs: nat -> Env, book: Book, n: nat, g: L.Group)
    requires cfg.controlled && n <= cfg.maxRetries + 2
    requires NoneActive(NewRows(cfg, envs, book, n))
    ensures SentTo(book, GenerateFrom(cfg, envs, n).0, g) == ConsumedIn(NewRows(cfg, envs, book, n), g)
    decreases cfg.maxRetries + 2 - n
  {
    if n <= cfg.maxRetries + 1 {
      var row := LeftRow(book, n, envs(n));
      var rows := NewRows(cfg, envs, book, n);
      NoneActiveSplit(row, rows[|row|..]);
      assert rows == row + rows[|row|..];
      AttemptSends(book, cfg.maxRetries, n, envs(n), g);
      var (calls, verdict) := Attempt(cfg.controlled, cfg.maxRetries, n, envs(n));
      if verdict.Retry? {
        var rest := NewRows(cfg, envs, book, n + 1);
        NoneActiveSplit(row, rest);
        RunSends(cfg, envs, book, n + 1, g);
        SentAppend(book, calls, GenerateFrom(cfg, envs, n + 1).0, g);
        ConsumedAppend(row, rest, g);
      } else {
        assert row + [] == row;
      }
    }
  }

  lemma {:induction false} ConsumedGlobally(rows: seq<L.Reservation>)
    ensures ConsumedIn(rows, L.OfKind(L.Global)) == ConsumedCount(rows)
  {
    if rows != [] {
      ConsumedGlobally(rows[1..]);
    }
  }

  /** In particular there are as many consumed rows as sends. */
  lemma SendsAreConsumed(cfg: Config, envs: nat -> Env, book: Book, n: nat)
    requires cfg.controlled && n <= cfg.maxRetries + 2
    requires NoneActive(NewRows(cfg, envs, book, n))
    ensures Sends(GenerateFrom(cfg, envs, n).0) == ConsumedCount(NewRows(cfg, envs, book, n))
  {
    RunSends(cfg, envs, book, n, L.OfKind(L.Global));
    SentAlike(book, GenerateFrom(cfg, envs, n).0, L.OfKind(L.Global), 1);
    ConsumedGlobally(NewRows(cfg, envs, book, n));
  }

  predicate SameScopes(a: L.Reservation, b: L.Reservation) {
    a.globalScope == b.globalScope && a.providerScope == b.providerScope && a.modelScope == b.modelScope && a.runScope == b.runScope
  }

  predicate ReservedColumn(c: L.Column) {
    c.ActiveReservations? || c.ReservedRequests? || c.ReservedInput? || c.ReservedOutput? || c.ReservedCost?
  }

  lemma HeadTotal(runs: L.Runs, r: L.Reservation, g: L.Group, c: L.Column)
    requires !L.Active(r.state) && (ReservedColumn(c) || c == L.ConsumedRequests)
    ensures L.Total(L.RefFacts(runs, r), g, c) == if ReservedColumn(c) then 0 else If(L.Consumed(r.state), Weight(r, g))
  {
    RefWeight(runs, r, g, c);
    OneMore(Weight(r, g), 0, 0);
  }

  lemma OneMore(w: nat, a: nat, b: nat)
    ensures w * (a + b) == w * a + w * b
    ensures w * 0 == 0
  {
  }

  lemma ConsTotal(runs: L.Runs, head: L.Reservation, tail: seq<L.Reservation>, g: L.Group, c: L.Column)
    ensures L.Total(L.Facts(runs, [head] + tail), g, c) == L.Total(L.RefFacts(runs, head), g, c) + L.Total(L.Facts(runs, tail), g, c)
  {
    L.FactsAppend(runs, [head], tail);
    L.FactsOne(runs, head);
    L.TotalAppend(L.RefFacts(runs, head), L.Facts(runs, tail), g, c);
  }

  lemma TailInactive(rows: seq<L.Reservation>)
    requires rows != [] && NoneActive(rows)
    ensures rows == [rows[0]] + rows[1..] && !L.Active(rows[0].state) && NoneActive(rows[1..])
  {
  }

  /** What rows without an open permit add to a column: nothing reserved, one request per consumed row and reference. */
  lemma {:induction false} InactiveTotals(runs: L.Runs, rows: seq<L.Reservation>, g: L.Group, c: L.Column)
    requires NoneActive(rows) && (ReservedColumn(c) || c == L.ConsumedRequests)
    ensures L.Total(L.Facts(runs, rows), g, c) == if ReservedColumn(c) then 0 else ConsumedIn(rows, g)
    decreases |rows|
  {
    if rows != [] {
      TailInactive(rows);
      ConsTotal(runs, rows[0], rows[1..], g, c);
      HeadTotal(runs, rows[0], g, c);
      InactiveTotals(runs, rows[1..], g, c);
    }
  }

  /**
   * A run that leaves no open permit balances: every reserved counter of every scope,
   * level and minute is back at its starting value, and consumed requests have risen by
   * one per send and reference, each in the minute in which the send started.
   */
  lemma RunBalances(cfg: Config, envs: nat -> Env, book: Book, n: nat, runs: L.Runs, ledger: seq<L.Reservation>, g: L.Group, c: L.Column)
    requires cfg.controlled && 1 <= n <= cfg.maxRetries + 1
    requires NoneActive(NewRows(cfg, envs, book, n))
    requires ReservedColumn(c) || c == L.ConsumedRequests
    ensures var trace := GenerateFrom(cfg, envs, n).0;
            L.Total(L.Facts(runs, ApplyAll(book, ledger, trace)), g, c) ==
            L.Total(L.Facts(runs, ledger), g, c) + if ReservedColumn(c) then 0 else SentTo(book, trace, g)
  {
    var rows := NewRows(cfg, envs, book, n);
    RunAppends(cfg, envs, book, n, ledger);
    L.FactsAppend(runs, ledger, rows);
    L.TotalAppend(L.Facts(runs, ledger), L.Facts(runs, rows), g, c);
    InactiveTotals(runs, rows, g, c);
    RunSends(cfg, envs, book, n, g);
  }

  /** When all attempts refer to the same scopes, a scope's consumed requests have risen by the sends, per reference. */
  lemma ScopeBalances(cfg: Config, envs: nat -> Env, book: Book, n: nat, runs: L.Runs,
                      ledger: seq<L.Reservation>, like: L.Reservation, scope: L.Id)
    requires cfg.controlled && 1 <= n <= cfg.maxRetries + 1
    requires forall k: nat :: SameScopes(book.template(k), like)
    requires NoneActive(NewRows(cfg, envs, book, n))
    ensures var trace := GenerateFrom(cfg, envs, n).0;
            L.Total(L.Facts(runs, ApplyAll(book, ledger, trace)), L.InScope(scope), L.ConsumedRequests) ==
            L.Total(L.Facts(runs, ledger), L.InScope(scope), L.ConsumedRequests) + Weight(like, L.InScope(scope)) * Sends(trace)
  {
    var g := L.InScope(scope);
    RunBalances(cfg, envs, book, n, runs, ledger, g, L.ConsumedRequests);
    forall k: nat
      ensures Weight(SentRow(book, k), g) == Weight(like, g)
    {
      assert SameScopes(book.template(k), like);
    }
    SentAlike(book, GenerateFrom(cfg, envs, n).0, g, Weight(like, g));
  }

  /** The last attempt a run makes. */
  function LastOrdinal(cfg: Config, envs: nat -> Env, n: nat): (last: nat)
    requires n <= cfg.maxRetries + 1
    ensures n <= last <= cfg.maxRetries + 1
    decreases cfg.maxRetries + 2 - n
  {
    if n <= cfg.maxRetries && Attempt(cfg.controlled, cfg.maxRetries, n, envs(n)).1.Retry?
    then LastOrdinal(cfg, envs, n + 1) else n
  }

  /**
   * A run leaves no open permit exactly when its last attempt either reserved nothing
   * or had its final transition take effect.
   */
  lemma {:induction false} NoOpenPermitIff(cfg: Config, envs: nat -> Env, book: Book, n: nat)
    requires cfg.controlled && 1 <= n <= cfg.maxRetries + 1
    ensures var env := envs(LastOrdinal(cfg, envs, n));
            NoneActive(NewRows(cfg, envs, book, n)) <==>
            if env.reserve.ReserveRaised? then !env.reserve.committed
            else !StartUnknown(env) && Took(env.finish)
    decreases cfg.maxRetries + 2 - n
  {
    var row := LeftRow(book, n, envs(n));
    var rows := NewRows(cfg, envs, book, n);
    if Attempt(true, cfg.maxRetries, n, envs(n)).1.Retry? {
      RetriedIsSettled(cfg.maxRetries, n, envs(n));
      NoOpenPermitIff(cfg, envs, book, n + 1);
      var rest := NewRows(cfg, envs, book, n + 1);
      assert rows == row + rest;
      NoneActiveSplit(row, rest);
    } else {
      assert rows == row;
      assert row != [] ==> row[0].state == FinalState(envs(n)).value;
      assert LastOrdinal(cfg, envs, n) == n;
    }
  }
}
