/**
 * The retry loop said of the environment alone: which attempts are made, what each of
 * them calls, and how the run ends.
 */
module AttemptOutcomes {
  import opened Prelude
  import opened Attempts

  // ----- What the answers of the environment mean -----

  /** The request of an attempt is sent: without a controller always, with one after its two transitions. */
  predicate Sent(cfg: Config, env: Env) { cfg.controlled ==> env.reserve.Granted? && env.mark.MarkedStarted? }

  /** Settling succeeded, or there is nothing to settle. */
  predicate Settles(cfg: Config, env: Env) { cfg.controlled ==> env.finish.FinishReturned? }

  /** Answers that deserve another attempt. */
  predicate Transient(reply: SendReply) { reply.TransportFailed? || (reply.AdapterFailed? && reply.retryable) }

  /** The delay before another attempt begins. */
  predicate Waits(cfg: Config, n: nat, env: Env) { Sent(cfg, env) && Transient(env.send) && Settles(cfg, env) && n <= cfg.maxRetries }

  /** Attempt n is followed by attempt n + 1. */
  predicate Continues(cfg: Config, n: nat, env: Env) { Waits(cfg, n, env) && !env.sleepInterrupted }

  /** The attempts that a run makes: the first, and each whose predecessors all continue. */
  predicate Made(cfg: Config, envs: nat -> Env, first: nat, n: nat) {
    first <= n <= cfg.maxRetries + 1 && forall j :: first <= j < n ==> Continues(cfg, j, envs(j))
  }

  /** What an attempt's permit is finished with. */
  datatype Settlement = Settlement(disposition: Disposition, outcome: Outcome, usage: Usage)

  function SettlementOf(env: Env): Settlement {
    if env.mark.MarkRaised? then Settlement(ReleasedPreSend, MarkSendFailed, NO_USAGE)
    else
      match env.send
      case Responded(Usage(Some(i), Some(o))) => Settlement(SettledActual, Succeeded, Usage(Some(i), Some(o)))
      case Responded(usage) => Settlement(SettledConservative, UsageIncomplete, usage)
      case SendCancelled => Settlement(SettledConservative, CancelledOutcome, NO_USAGE)
      case BodyTooLarge => Settlement(SettledConservative, ProviderResponseError, NO_USAGE)
      case TransportFailed => Settlement(SettledConservative, TransportError, NO_USAGE)
      case AdapterFailed(true, _) => Settlement(SettledConservative, HttpError, NO_USAGE)
      case AdapterFailed(false, _) => Settlement(SettledConservative, ProviderResponseError, NO_USAGE)
      case SendRaised => Settlement(SettledConservative, UnexpectedError, NO_USAGE)
  }

  /** What a run returns or raises when its last attempt was sent and settled. */
  function Answer(reply: SendReply): Result {
    match reply
    case Responded(usage) => Returned(usage)
    case SendCancelled => Raised(CancelledRun)
    case BodyTooLarge => Raised(TooLarge)
    case TransportFailed => Raised(Transport)
    case AdapterFailed(_, _) => Raised(Adapter)
    case SendRaised => Raised(Unexpected)
  }

  /** What a run returns or raises when attempt n is its last. */
  function EndOf(cfg: Config, n: nat, env: Env): Result {
    if cfg.controlled && env.reserve.ReserveRaised? then Raised(ReserveFailed)
    else if cfg.controlled && (env.mark.MarkCancelled? || env.mark.MarkUnknown?) then Raised(SendStartUnknown)
    else if Sent(cfg, env) && env.send.SendCancelled? then Raised(CancelledRun)
    else if !Settles(cfg, env) then Raised(FinishFailed)
    else if !Sent(cfg, env) then Raised(SendStartFailed)
    else if Waits(cfg, n, env) then Raised(SleepCancelled)
    else Answer(env.send)
  }

  /** The calls of attempt n, as a set given by their members. */
  predicate Calls(cfg: Config, n: nat, env: Env, call: Call) {
    match call
    case Reserve(k, committed, returned) =>
      && k == n && cfg.controlled && returned == env.reserve.Granted?
      && committed == (env.reserve.Granted? || env.reserve.committed)
    case MarkSend(k, committed, returned) =>
      && k == n && cfg.controlled && env.reserve.Granted? && returned == env.mark.MarkedStarted?
      && committed == (env.mark.MarkedStarted? || ((env.mark.MarkCancelled? || env.mark.MarkUnknown?) && env.mark.committed))
    case Send(k) => k == n && Sent(cfg, env)
    case Finish(k, d, o, u, committed, returned) =>
      && k == n && cfg.controlled && env.reserve.Granted? && (env.mark.MarkedStarted? || env.mark.MarkRaised?)
      && Settlement(d, o, u) == SettlementOf(env) && returned == env.finish.FinishReturned?
      && committed == (env.finish.FinishReturned? || env.finish.committed)
    case Sleep(k) => k == n && Waits(cfg, n, env)
  }

  // ----- The loop does exactly that -----

  lemma SentCalls(cfg: Config, n: nat, env: Env, call: Call)
    requires Sent(cfg, env)
    ensures call in AfterSend(cfg.controlled, cfg.maxRetries, n, env).0 <==> (call.Finish? || call.Sleep?) && Calls(cfg, n, env, call)
  {
  }

  lemma AttemptCalls(cfg: Config, n: nat, env: Env, call: Call)
    ensures call in Attempt(cfg.controlled, cfg.maxRetries, n, env).0 <==> Calls(cfg, n, env, call)
  {
    if Sent(cfg, env) {
      SentCalls(cfg, n, env, call);
    }
  }

  lemma AttemptEnds(cfg: Config, n: nat, env: Env)
    ensures Attempt(cfg.controlled, cfg.maxRetries, n, env).1 == if Continues(cfg, n, env) then Retry else Stop(EndOf(cfg, n, env))
  {
  }

  lemma MadeStep(cfg: Config, envs: nat -> Env, first: nat, n: nat)
    requires first <= cfg.maxRetries + 1
    ensures Made(cfg, envs, first, n) <==>
            n == first || (Continues(cfg, first, envs(first)) && Made(cfg, envs, first + 1, n))
  {
  }

  /**
   * The calls of a run are those of the attempts it makes; an attempt is followed by
   * the next exactly when its answer is transient, it could be settled, attempts
   * remain, and the delay was not interrupted.
   */
  lemma {:induction false} RunCalls(cfg: Config, envs: nat -> Env, first: nat, call: Call)
    requires 1 <= first <= cfg.maxRetries + 1
    ensures call in GenerateFrom(cfg, envs, first).0 <==>
            Made(cfg, envs, first, call.ordinal) && Calls(cfg, call.ordinal, envs(call.ordinal), call)
    decreases cfg.maxRetries + 2 - first
  {
    AttemptCalls(cfg, first, envs(first), call);
    AttemptEnds(cfg, first, envs(first));
    MadeStep(cfg, envs, first, call.ordinal);
    if Continues(cfg, first, envs(first)) {
      RunCalls(cfg, envs, first + 1, call);
    }
  }

  /** A run ends with what the environment answered its last attempt, and there is a last one. */
  lemma {:induction false} RunEnds(cfg: Config, envs: nat -> Env, first: nat)
    requires 1 <= first <= cfg.maxRetries + 1
    ensures exists n :: Made(cfg, envs, first, n) && !Continues(cfg, n, envs(n))
                        && GenerateFrom(cfg, envs, first).1 == EndOf(cfg, n, envs(n))
    decreases cfg.maxRetries + 2 - first
  {
    AttemptEnds(cfg, first, envs(first));
    MadeStep(cfg, envs, first, first);
    if Continues(cfg, first, envs(first)) {
      RunEnds(cfg, envs, first + 1);
      var n :| Made(cfg, envs, first + 1, n) && !Continues(cfg, n, envs(n))
               && GenerateFrom(cfg, envs, first + 1).1 == EndOf(cfg, n, envs(n));
      MadeStep(cfg, envs, first, n);
    }
  }

  /** The last attempt is the only one that does not continue, so the result is determined. */
  lemma LastIsUnique(cfg: Config, envs: nat -> Env, first: nat, m: nat, n: nat)
    requires Made(cfg, envs, first, m) && !Continues(cfg, m, envs(m))
    requires Made(cfg, envs, first, n) && !Continues(cfg, n, envs(n))
    ensures m == n
  {
  }

  /** What a run returns, exactly: the usage of the first answer, all failures before it being transient. */
  lemma ReturnsIff(cfg: Config, envs: nat -> Env, first: nat, usage: Usage)
    requires 1 <= first <= cfg.maxRetries + 1
    ensures GenerateFrom(cfg, envs, first).1 == Returned(usage) <==>
            exists n :: Made(cfg, envs, first, n) && Sent(cfg, envs(n)) && envs(n).send == Responded(usage) && Settles(cfg, envs(n))
  {
    RunEnds(cfg, envs, first);
    var m :| Made(cfg, envs, first, m) && !Continues(cfg, m, envs(m)) && GenerateFrom(cfg, envs, first).1 == EndOf(cfg, m, envs(m));
    if n :| Made(cfg, envs, first, n) && Sent(cfg, envs(n)) && envs(n).send == Responded(usage) && Settles(cfg, envs(n)) {
      LastIsUnique(cfg, envs, first, m, n);
    }
  }
}
