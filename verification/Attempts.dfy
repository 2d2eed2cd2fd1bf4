/**
 * The provider attempt lifecycle: the retry loop of `generate` against a durable
 * controller, for every placement of failures.
 */
module Attempts {
  import opened Prelude

  datatype Disposition = ReleasedPreSend | SettledActual | SettledConservative

  datatype Outcome =
    | Succeeded | UsageIncomplete | TransportError | HttpError
    | ProviderResponseError | CancelledOutcome | MarkSendFailed | UnexpectedError

  datatype Usage = Usage(input: Option<nat>, output: Option<nat>) {
    predicate Complete() { input.Some? && output.Some? }
  }

  const NO_USAGE := Usage(None, None)

  // What the environment answers at each await of one attempt.  `committed` says
  // whether a transition that raised took effect all the same.
  datatype ReserveReply = Granted | ReserveRaised(committed: bool)

  datatype MarkReply = MarkedStarted | MarkCancelled(committed: bool) | MarkUnknown(committed: bool) | MarkRaised

  datatype SendReply =
    | Responded(usage: Usage)
    | SendCancelled
    | BodyTooLarge
    | TransportFailed
    | AdapterFailed(httpError: bool, retryable: bool)
    | SendRaised

  datatype FinishReply = FinishReturned | FinishRaised(committed: bool)

  datatype Env = Env(reserve: ReserveReply, mark: MarkReply, send: SendReply, finish: FinishReply, sleepInterrupted: bool)

  /** Calls made, with what they durably did and whether they returned. */
  datatype Call =
    | Reserve(ordinal: nat, committed: bool, returned: bool)
    | MarkSend(ordinal: nat, committed: bool, returned: bool)
    | Send(ordinal: nat)
    | Finish(ordinal: nat, disposition: Disposition, outcome: Outcome, usage: Usage, committed: bool, returned: bool)
    | Sleep(ordinal: nat)

  datatype Reason =
    | InvalidContext | ReserveFailed | SendStartUnknown | SendStartFailed | CancelledRun | TooLarge
    | Transport | Adapter | Unexpected | FinishFailed | SleepCancelled

  datatype Result = Returned(usage: Usage) | Raised(reason: Reason) | AssertionFailed

  datatype Config = Config(controlled: bool, context: Option<int>, maxRetries: nat)

  /** The ordinal of the first attempt, or None for a ValueError. */
  function FirstAttempt(cfg: Config): (first: Option<nat>)
    ensures first.Some? <==> (if cfg.controlled then cfg.context.Some? && 1 <= cfg.context.value <= cfg.maxRetries + 1
                              else cfg.context == None)
    ensures first.Some? ==> 1 <= first.value <= cfg.maxRetries + 1 && first.value == if cfg.controlled then cfg.context.value else 1
  {
    if !cfg.controlled then (if cfg.context.Some? then None else Some(1))
    else if cfg.context == None || !(1 <= cfg.context.value <= cfg.maxRetries + 1) then None
    else Some(cfg.context.value)
  }

  // ----- The delay before a retry -----

  function Power2(k: nat): real { if k == 0 then 1.0 else 2.0 * Power2(k - 1) }

  function Least(a: real, b: real): real { if a <= b then a else b }

  /** Seconds slept after a failed attempt. */
  function Backoff(base: real, cap: real, failed: nat): real
    requires failed >= 1
  {
    Least(base * Power2(failed - 1), cap)
  }

  /** The delay starts at the base, doubles with every failure, and stays at the cap once it gets there. */
  lemma BackoffDoubles(base: real, cap: real, failed: nat)
    requires failed >= 1 && base >= 0.0 && cap >= 0.0
    ensures Backoff(base, cap, 1) == Least(base, cap)
    ensures Backoff(base, cap, failed + 1) == Least(2.0 * Backoff(base, cap, failed), cap)
    ensures 0.0 <= Backoff(base, cap, failed) <= Backoff(base, cap, failed + 1) <= cap
  {
    var x := Power2(failed - 1);
    assert Power2(failed) == 2.0 * x;
    PowerPositive(failed - 1);
    Doubled(base, x);
  }

  lemma {:induction false} PowerPositive(k: nat)
    ensures Power2(k) >= 1.0
  {
    if k > 0 {
      PowerPositive(k - 1);
    }
  }

  lemma Doubled(base: real, x: real)
    requires base >= 0.0 && x >= 1.0
    ensures base * (2.0 * x) == 2.0 * (base * x) && base * x >= 0.0
  {
  }

  // ----- One attempt -----

  datatype Verdict = Retry | Stop(result: Result)

  predicate Took(f: FinishReply) { f.FinishReturned? || f.committed }

  function Settle(controlled: bool, n: nat, d: Disposition, o: Outcome, u: Usage, f: FinishReply): seq<Call> {
    if controlled then [Finish(n, d, o, u, Took(f), f.FinishReturned?)] else []
  }

  /** After a settlement: a settlement that raised ends the run in its own exception. */
  function Then(controlled: bool, f: FinishReply, v: Verdict): Verdict {
    if controlled && f.FinishRaised? then Stop(Raised(FinishFailed)) else v
  }

  /** A retryable failure: settle, then sleep and retry while attempts remain. */
  function Retryable(controlled: bool, maxRetries: nat, n: nat, o: Outcome, may: bool, last: Reason, env: Env): (seq<Call>, Verdict) {
    var settle := Settle(controlled, n, SettledConservative, o, NO_USAGE, env.finish);
    if controlled && env.finish.FinishRaised? then (settle, Stop(Raised(FinishFailed)))
    else if may && n <= maxRetries then
      (settle + [Sleep(n)], if env.sleepInterrupted then Stop(Raised(SleepCancelled)) else Retry)
    else (settle, Stop(Raised(last)))
  }

  /** From the send on: what is done with the provider's answer. */
  function AfterSend(controlled: bool, maxRetries: nat, n: nat, env: Env): (seq<Call>, Verdict) {
    match env.send
    case Responded(u) =>
      var d := if u.Complete() then SettledActual else SettledConservative;
      var o := if u.Complete() then Succeeded else UsageIncomplete;
      (Settle(controlled, n, d, o, u, env.finish), Then(controlled, env.finish, Stop(Returned(u))))
    case SendCancelled =>
      (Settle(controlled, n, SettledConservative, CancelledOutcome, NO_USAGE, env.finish), Stop(Raised(CancelledRun)))
    case BodyTooLarge =>
      (Settle(controlled, n, SettledConservative, ProviderResponseError, NO_USAGE, env.finish),
       Then(controlled, env.finish, Stop(Raised(TooLarge))))
    case TransportFailed => Retryable(controlled, maxRetries, n, TransportError, true, Transport, env)
    case AdapterFailed(http, may) =>
      Retryable(controlled, maxRetries, n, if http then HttpError else ProviderResponseError, may, Adapter, env)
    case SendRaised =>
      (Settle(controlled, n, SettledConservative, UnexpectedError, NO_USAGE, env.finish),
       Then(controlled, env.finish, Stop(Raised(Unexpected))))
  }

  /** One iteration of the loop. */
  function Attempt(controlled: bool, maxRetries: nat, n: nat, env: Env): (seq<Call>, Verdict) {
    if !controlled then
      var (calls, verdict) := AfterSend(false, maxRetries, n, env);
      ([Send(n)] + calls, verdict)
    else if env.reserve.ReserveRaised? then
      ([Reserve(n, env.reserve.committed, false)], Stop(Raised(ReserveFailed)))
    else
      match env.mark
      case MarkCancelled(committed) =>
        ([Reserve(n, true, true), MarkSend(n, committed, false)], Stop(Raised(SendStartUnknown)))
      case MarkUnknown(committed) =>
        ([Reserve(n, true, true), MarkSend(n, committed, false)], Stop(Raised(SendStartUnknown)))
      case MarkRaised =>
        ([Reserve(n, true, true), MarkSend(n, false, false)]
         + Settle(true, n, ReleasedPreSend, MarkSendFailed, NO_USAGE, env.finish),
         Then(true, env.finish, Stop(Raised(SendStartFailed))))
      case MarkedStarted =>
        var (calls, verdict) := AfterSend(true, maxRetries, n, env);
        ([Reserve(n, true, true), MarkSend(n, true, true), Send(n)] + calls, verdict)
  }

  function GenerateFrom(cfg: Config, envs: nat -> Env, n: nat): (seq<Call>, Result)
    requires n <= cfg.maxRetries + 2
    decreases cfg.maxRetries + 2 - n
  {
    if n > cfg.maxRetries + 1 then ([], AssertionFailed)
    else
      var (calls, verdict) := Attempt(cfg.controlled, cfg.maxRetries, n, envs(n));
      match verdict
      case Stop(result) => (calls, result)
      case Retry =>
        var (rest, result) := GenerateFrom(cfg, envs, n + 1);
        (calls + rest, result)
  }

  /** The whole call. */
  function Generate(cfg: Config, envs: nat -> Env): (seq<Call>, Result) {
    match FirstAttempt(cfg)
    case None => ([], Raised(InvalidContext))
    case Some(first) => GenerateFrom(cfg, envs, first)
  }

  /** One settlement through the controller, if there is one. */
  method FinishAttempt(controlled: bool, n: nat, d: Disposition, o: Outcome, u: Usage, f: FinishReply, trace: seq<Call>)
    returns (after: seq<Call>, raised: bool)
    ensures after == trace + Settle(controlled, n, d, o, u, f)
    ensures raised <==> controlled && f.FinishRaised?
  {
    after, raised := trace, false;
    if controlled {
      after := trace + [Finish(n, d, o, u, Took(f), f.FinishReturned?)];
      raised := f.FinishRaised?;
    } else {
      assert trace + [] == trace;
    }
  }

  /** From the send on, handler by handler. */
  method HandleResponse(cfg: Config, n: nat, env: Env, sent: seq<Call>) returns (trace: seq<Call>, verdict: Verdict)
    ensures trace == sent + AfterSend(cfg.controlled, cfg.maxRetries, n, env).0
    ensures verdict == AfterSend(cfg.controlled, cfg.maxRetries, n, env).1
  {
    var raised;
    var outcome, may, last;
    match env.send {
      case Responded(usage) =>
        var complete := usage.input.Some? && usage.output.Some?;
        trace, raised := FinishAttempt(cfg.controlled, n, if complete then SettledActual else SettledConservative,
                                       if complete then Succeeded else UsageIncomplete, usage, env.finish, sent);
        return trace, if raised then Stop(Raised(FinishFailed)) else Stop(Returned(usage));
      case SendCancelled =>
        trace, raised := FinishAttempt(cfg.controlled, n, SettledConservative, CancelledOutcome, NO_USAGE, env.finish, sent);
        return trace, Stop(Raised(CancelledRun));
      case BodyTooLarge =>
        trace, raised := FinishAttempt(cfg.controlled, n, SettledConservative, ProviderResponseError, NO_USAGE, env.finish, sent);
        return trace, if raised then Stop(Raised(FinishFailed)) else Stop(Raised(TooLarge));
      case SendRaised =>
        trace, raised := FinishAttempt(cfg.controlled, n, SettledConservative, UnexpectedError, NO_USAGE, env.finish, sent);
        return trace, if raised then Stop(Raised(FinishFailed)) else Stop(Raised(Unexpected));
      case TransportFailed => outcome, may, last := TransportError, true, Transport;
      case AdapterFailed(http, retryable) =>
        outcome, may, last := if http then HttpError else ProviderResponseError, retryable, Adapter;
    }
    trace, raised := FinishAttempt(cfg.controlled, n, SettledConservative, outcome, NO_USAGE, env.finish, sent);
    if raised {
      return trace, Stop(Raised(FinishFailed));
    }
    if may && n <= cfg.maxRetries {
      trace := trace + [Sleep(n)];
      return trace, if env.sleepInterrupted then Stop(Raised(SleepCancelled)) else Retry;
    }
    verdict := Stop(Raised(last));
  }

  /** One iteration: reserve, mark the send, send, settle. */
  method RunAttempt(cfg: Config, n: nat, env: Env) returns (trace: seq<Call>, verdict: Verdict)
    ensures (trace, verdict) == Attempt(cfg.controlled, cfg.maxRetries, n, env)
  {
    trace := [];
    if cfg.controlled {
      if env.reserve.ReserveRaised? {
        return [Reserve(n, env.reserve.committed, false)], Stop(Raised(ReserveFailed));
      }
      trace := [Reserve(n, true, true)];
      if env.mark.MarkCancelled? || env.mark.MarkUnknown? {
        return [Reserve(n, true, true), MarkSend(n, env.mark.committed, false)], Stop(Raised(SendStartUnknown));
      }
      if env.mark.MarkRaised? {
        var raised;
        trace, raised := FinishAttempt(true, n, ReleasedPreSend, MarkSendFailed, NO_USAGE, env.finish,
                                       [Reserve(n, true, true), MarkSend(n, false, false)]);
        return trace, Stop(Raised(if raised then FinishFailed else SendStartFailed));
      }
      trace := [Reserve(n, true, true), MarkSend(n, true, true)];
    }
    trace := trace + [Send(n)];
    assert trace == if cfg.controlled then [Reserve(n, true, true), MarkSend(n, true, true), Send(n)] else [Send(n)];
    trace, verdict := HandleResponse(cfg, n, env, trace);
  }

  /** The loop as the adapter runs it. */
  method RunGenerate(cfg: Config, envs: nat -> Env) returns (trace: seq<Call>, result: Result)
    ensures (trace, result) == Generate(cfg, envs)
  {
    var first := FirstAttempt(cfg);
    if first == None {
      return [], Raised(InvalidContext);
    }
    trace, result := RunAttempts(cfg, envs, first.value);
  }

  /** From attempt `first`, the calls made so far are `done` and attempt n is next. */
  predicate Reached(cfg: Config, envs: nat -> Env, first: nat, n: nat, done: seq<Call>)
    requires first <= cfg.maxRetries + 2 && n <= cfg.maxRetries + 2
  {
    GenerateFrom(cfg, envs, first) == (done + GenerateFrom(cfg, envs, n).0, GenerateFrom(cfg, envs, n).1)
  }

  method RunAttempts(cfg: Config, envs: nat -> Env, first: nat) returns (trace: seq<Call>, result: Result)
    requires first <= cfg.maxRetries + 1
    ensures trace == GenerateFrom(cfg, envs, first).0 && result == GenerateFrom(cfg, envs, first).1
  {
    trace := [];
    ReachedFirst(cfg, envs, first);
    for attempt := first to cfg.maxRetries + 2
      invariant Reached(cfg, envs, first, attempt, trace)
    {
      ReachedNext(cfg, envs, first, attempt, trace);
      var calls, verdict := RunAttempt(cfg, attempt, envs(attempt));
      trace := trace + calls;
      if verdict.Stop? {
        return trace, verdict.result;
      }
    }
    ReachedLast(cfg, envs, first, trace);
    result := AssertionFailed;
  }

  lemma ReachedFirst(cfg: Config, envs: nat -> Env, first: nat)
    requires first <= cfg.maxRetries + 2
    ensures Reached(cfg, envs, first, first, [])
  {
    assert [] + GenerateFrom(cfg, envs, first).0 == GenerateFrom(cfg, envs, first).0;
  }

  lemma ReachedNext(cfg: Config, envs: nat -> Env, first: nat, n: nat, done: seq<Call>)
    requires first <= cfg.maxRetries + 2 && n <= cfg.maxRetries + 1 && Reached(cfg, envs, first, n, done)
    ensures var (calls, verdict) := Attempt(cfg.controlled, cfg.maxRetries, n, envs(n));
            match verdict
            case Stop(result) => GenerateFrom(cfg, envs, first) == (done + calls, result)
            case Retry => Reached(cfg, envs, first, n + 1, done + calls)
  {
    GenerateStep(cfg, envs, n, done);
  }

  lemma ReachedLast(cfg: Config, envs: nat -> Env, first: nat, done: seq<Call>)
    requires first <= cfg.maxRetries + 2 && Reached(cfg, envs, first, cfg.maxRetries + 2, done)
    ensures GenerateFrom(cfg, envs, first) == (done, AssertionFailed)
  {
    assert done + [] == done;
  }

  lemma GenerateStep(cfg: Config, envs: nat -> Env, n: nat, before: seq<Call>)
    requires n <= cfg.maxRetries + 1
    ensures var (calls, verdict) := Attempt(cfg.controlled, cfg.maxRetries, n, envs(n));
            var (trace, result) := GenerateFrom(cfg, envs, n);
            match verdict
            case Stop(r) => before + trace == before + calls && result == r
            case Retry =>
              before + trace == (before + calls) + GenerateFrom(cfg, envs, n + 1).0 && result == GenerateFrom(cfg, envs, n + 1).1
  {
    var (calls, verdict) := Attempt(cfg.controlled, cfg.maxRetries, n, envs(n));
    if verdict.Retry? {
      var rest := GenerateFrom(cfg, envs, n + 1).0;
      assert before + (calls + rest) == (before + calls) + rest;
    }
  }

  // ----- The controller's contract, as a monitor of the calls -----

  /** At most one permit exists at a time: it is the phase. */
  datatype Phase =
    | Ready(next: nat)
    | Open(n: nat)
    | Unmarked(n: nat, committed: bool)
    | Marked(n: nat)
    | InFlight(n: nat)
    | Settled(n: nat)
    | Over
    | Violation

  /** The one legal move for each call; anything else is a violation. */
  function Observe(limit: nat, phase: Phase, call: Call): Phase {
    match (phase, call)
    case (Ready(k), Reserve(n, committed, returned)) =>
      if n != k || n > limit || (returned && !committed) then Violation else if returned then Open(n) else Over
    case (Open(k), MarkSend(n, committed, returned)) =>
      if n != k || (returned && !committed) then Violation else if returned then Marked(n) else Unmarked(n, committed)
    case (Unmarked(k, started), Finish(n, d, o, u, committed, returned)) =>
      if n != k || started || d != ReleasedPreSend || o != MarkSendFailed || u != NO_USAGE || (returned && !committed)
      then Violation else Over
    case (Marked(k), Send(n)) => if n != k then Violation else InFlight(n)
    case (InFlight(k), Finish(n, d, o, u, committed, returned)) =>
      if n != k || (returned && !committed) then Violation
      else if d == SettledActual then (if o == Succeeded && u.Complete() then Over else Violation)
      else if d == SettledConservative then (if o == Succeeded then Violation else if returned then Settled(n) else Over)
      else Violation
    case (Settled(k), Sleep(n)) => if n != k || n >= limit then Violation else Ready(n + 1)
    case (_, _) => Violation
  }

  function Watch(limit: nat, phase: Phase, calls: seq<Call>): Phase
    decreases |calls|
  {
    if calls == [] then phase else Watch(limit, Observe(limit, phase, calls[0]), calls[1..])
  }

  lemma {:induction false} WatchAppend(limit: nat, phase: Phase, a: seq<Call>, b: seq<Call>)
    ensures Watch(limit, phase, a + b) == Watch(limit, Watch(limit, phase, a), b)
    decreases |a|
  {
    if a == [] {
      assert a + b == b;
    } else {
      assert (a + b)[0] == a[0] && (a + b)[1..] == a[1..] + b;
      WatchAppend(limit, Observe(limit, phase, a[0]), a[1..], b);
    }
  }

  lemma WatchOne(limit: nat, phase: Phase, call: Call)
    ensures Watch(limit, phase, [call]) == Observe(limit, phase, call)
  {
    assert [call][1..] == [];
  }

  lemma WatchTwo(limit: nat, phase: Phase, a: Call, b: Call)
    ensures Watch(limit, phase, [a, b]) == Observe(limit, Observe(limit, phase, a), b)
  {
    assert [a, b][1..] == [b];
    WatchOne(limit, Observe(limit, phase, a), b);
  }

  /** Where a run may stand when it ends with a result. */
  predicate EndsIn(phase: Phase, result: Result) {
    match result
    case Returned(u) => if u.Complete() then phase == Over else phase.Settled?
    case Raised(SendStartUnknown) => phase.Unmarked?
    case Raised(ReserveFailed) => phase == Over
    case Raised(SendStartFailed) => phase == Over
    case Raised(FinishFailed) => phase == Over
    case Raised(CancelledRun) => phase == Over || phase.Settled?
    case Raised(SleepCancelled) => phase.Ready?
    case Raised(InvalidContext) => false
    case Raised(_) => phase.Settled?
    case AssertionFailed => false
  }

  lemma RetryableObserved(maxRetries: nat, n: nat, o: Outcome, may: bool, last: Reason, env: Env)
    requires n <= maxRetries + 1 && o != Succeeded && (last == Transport || last == Adapter)
    ensures var (calls, verdict) := Retryable(true, maxRetries, n, o, may, last, env);
            var phase := Watch(maxRetries + 1, InFlight(n), calls);
            match verdict
            case Retry => n <= maxRetries && phase == Ready(n + 1)
            case Stop(result) => EndsIn(phase, result)
  {
    var calls := Retryable(true, maxRetries, n, o, may, last, env).0;
    if |calls| == 1 {
      WatchOne(maxRetries + 1, InFlight(n), calls[0]);
    } else {
      WatchTwo(maxRetries + 1, InFlight(n), calls[0], calls[1]);
    }
  }

  lemma AfterSendObserved(maxRetries: nat, n: nat, env: Env)
    requires n <= maxRetries + 1
    ensures var (calls, verdict) := AfterSend(true, maxRetries, n, env);
            var phase := Watch(maxRetries + 1, InFlight(n), calls);
            match verdict
            case Retry => n <= maxRetries && phase == Ready(n + 1)
            case Stop(result) => EndsIn(phase, result)
  {
    match env.send
    case TransportFailed =>
      RetryableObserved(maxRetries, n, TransportError, true, Transport, env);
    case AdapterFailed(http, may) =>
      RetryableObserved(maxRetries, n, if http then HttpError else ProviderResponseError, may, Adapter, env);
    case _ =>
      WatchOne(maxRetries + 1, InFlight(n), AfterSend(true, maxRetries, n, env).0[0]);
  }

  lemma AttemptObserved(maxRetries: nat, n: nat, env: Env)
    requires n <= maxRetries + 1
    ensures var (calls, verdict) := Attempt(true, maxRetries, n, env);
            var phase := Watch(maxRetries + 1, Ready(n), calls);
            match verdict
            case Retry => n <= maxRetries && phase == Ready(n + 1)
            case Stop(result) => EndsIn(phase, result)
  {
    var limit := maxRetries + 1;
    var (calls, verdict) := Attempt(true, maxRetries, n, env);
    if env.reserve.ReserveRaised? {
      WatchOne(limit, Ready(n), calls[0]);
    } else {
      WatchTwo(limit, Ready(n), calls[0], calls[1]);
      var tail := calls[2..];
      assert calls == [calls[0], calls[1]] + tail;
      WatchAppend(limit, Ready(n), [calls[0], calls[1]], tail);
      if env.mark.MarkedStarted? {
        SendObserved(maxRetries, n, env);
        assert tail == [Send(n)] + AfterSend(true, maxRetries, n, env).0;
      } else if env.mark.MarkRaised? {
        WatchOne(limit, Unmarked(n, false), tail[0]);
      }
    }
  }

  lemma SendObserved(maxRetries: nat, n: nat, env: Env)
    requires n <= maxRetries + 1
    ensures var (calls, verdict) := AfterSend(true, maxRetries, n, env);
            var phase := Watch(maxRetries + 1, Marked(n), [Send(n)] + calls);
            match verdict
            case Retry => n <= maxRetries && phase == Ready(n + 1)
            case Stop(result) => EndsIn(phase, result)
  {
    var limit, calls := maxRetries + 1, AfterSend(true, maxRetries, n, env).0;
    AfterSendObserved(maxRetries, n, env);
    WatchAppend(limit, Marked(n), [Send(n)], calls);
    WatchOne(limit, Marked(n), Send(n));
  }

  /**
   * Every run keeps the controller's contract, whatever fails and wherever: ordinals
   * rise by one and stay within the policy, one permit is open at a time and finished
   * at most once, a retry follows only a returned conservative settlement, actual
   * settlement is last and has both token counts; and the loop never falls through.
   */
  lemma {:induction false} LifecycleHolds(cfg: Config, envs: nat -> Env, n: nat)
    requires cfg.controlled && 1 <= n <= cfg.maxRetries + 1
    ensures var (trace, result) := GenerateFrom(cfg, envs, n);
            EndsIn(Watch(cfg.maxRetries + 1, Ready(n), trace), result)
    decreases cfg.maxRetries + 2 - n
  {
    AttemptObserved(cfg.maxRetries, n, envs(n));
    var (calls, verdict) := Attempt(cfg.controlled, cfg.maxRetries, n, envs(n));
    if verdict.Retry? {
      LifecycleHolds(cfg, envs, n + 1);
      WatchAppend(cfg.maxRetries + 1, Ready(n), calls, GenerateFrom(cfg, envs, n + 1).0);
    }
  }

  /** Without a controller no controller call is made, and the loop still never falls through. */
  lemma {:induction false} UncontrolledRuns(cfg: Config, envs: nat -> Env, n: nat)
    requires !cfg.controlled && 1 <= n <= cfg.maxRetries + 1
    ensures var (trace, result) := GenerateFrom(cfg, envs, n);
            result != AssertionFailed && forall c :: c in trace ==> c.Send? || c.Sleep?
    decreases cfg.maxRetries + 2 - n
  {
    var (calls, verdict) := Attempt(cfg.controlled, cfg.maxRetries, n, envs(n));
    if verdict.Retry? {
      UncontrolledRuns(cfg, envs, n + 1);
    }
  }

  // ----- Each permit is finished exactly once -----

  function Finishes(calls: seq<Call>, n: nat): nat {
    if calls == [] then 0
    else (if calls[0].Finish? && calls[0].ordinal == n then 1 else 0) + Finishes(calls[1..], n)
  }

  lemma {:induction false} FinishesAppend(a: seq<Call>, b: seq<Call>, n: nat)
    ensures Finishes(a + b, n) == Finishes(a, n) + Finishes(b, n)
    decreases |a|
  {
    if a == [] {
      assert a + b == b;
    } else {
      assert (a + b)[0] == a[0] && (a + b)[1..] == a[1..] + b;
      FinishesAppend(a[1..], b, n);
    }
  }

  predicate StartUnknown(env: Env) { env.mark.MarkCancelled? || env.mark.MarkUnknown? }

  /** Whether the run reaches attempt n and is granted a permit there. */
  predicate HasPermit(trace: seq<Call>, n: nat) { Reserve(n, true, true) in trace }

  lemma {:induction false} NoFinish(calls: seq<Call>, n: nat)
    requires forall c :: c in calls ==> !c.Finish?
    ensures Finishes(calls, n) == 0
    decreases |calls|
  {
    if calls != [] {
      NoFinish(calls[1..], n);
    }
  }

  lemma AfterSendFinishes(maxRetries: nat, n: nat, env: Env, k: nat)
    ensures var calls := AfterSend(true, maxRetries, n, env).0;
            Finishes(calls, k) == (if k == n then 1 else 0) && !HasPermit(calls, k)
  {
    var calls := AfterSend(true, maxRetries, n, env).0;
    assert calls[0].Finish? && calls[0].ordinal == n;
    NoFinish(calls[1..], k);
  }

  lemma AttemptFinishes(maxRetries: nat, n: nat, env: Env, k: nat)
    ensures var calls := Attempt(true, maxRetries, n, env).0;
            && Finishes(calls, k) == (if k == n && env.reserve.Granted? && !StartUnknown(env) then 1 else 0)
            && (HasPermit(calls, k) <==> k == n && env.reserve.Granted?)
  {
    var calls := Attempt(true, maxRetries, n, env).0;
    if env.reserve.ReserveRaised? || StartUnknown(env) {
      NoFinish(calls, k);
    } else {
      var j := if env.mark.MarkRaised? then 2 else 3;
      NoFinish(calls[..j], k);
      assert calls == calls[..j] + calls[j..];
      FinishesAppend(calls[..j], calls[j..], k);
      if env.mark.MarkRaised? {
        NoFinish(calls[j..][1..], k);
      } else {
        AfterSendFinishes(maxRetries, n, env, k);
        assert calls[j..] == AfterSend(true, maxRetries, n, env).0;
      }
    }
    assert env.reserve.Granted? ==> calls[0] == Reserve(n, true, true);
  }

  /** Every granted permit is finished exactly once, unless its send-start outcome is unknown; then never. */
  lemma {:induction false} FinishedExactlyOnce(cfg: Config, envs: nat -> Env, n: nat, k: nat)
    requires cfg.controlled && 1 <= n <= cfg.maxRetries + 1
    ensures var trace := GenerateFrom(cfg, envs, n).0;
            Finishes(trace, k) == if HasPermit(trace, k) && !StartUnknown(envs(k)) then 1 else 0
    ensures k < n ==> !HasPermit(GenerateFrom(cfg, envs, n).0, k)
    decreases cfg.maxRetries + 2 - n
  {
    AttemptFinishes(cfg.maxRetries, n, envs(n), k);
    var (calls, verdict) := Attempt(cfg.controlled, cfg.maxRetries, n, envs(n));
    if verdict.Retry? {
      RetryLeavesRoom(cfg.maxRetries, n, envs(n));
      FinishedExactlyOnce(cfg, envs, n + 1, k);
      FinishesAppend(calls, GenerateFrom(cfg, envs, n + 1).0, k);
    }
  }

  lemma RetryLeavesRoom(maxRetries: nat, n: nat, env: Env)
    requires Attempt(true, maxRetries, n, env).1.Retry?
    ensures n <= maxRetries && env.reserve.Granted? && !StartUnknown(env)
  {
  }
}
