/**
 * The mock adapter runs the same lifecycle once, by its own code: it is the retry
 * loop on the last attempt its policy allows.
 */
module MockAttempts {
  import opened Prelude
  import opened Attempts

  datatype MockSend = Prepared(usage: Usage) | SleepCancelledHere | SimulatedError(retryable: bool) | SleepRaised

  datatype MockEnv = MockEnv(reserve: ReserveReply, mark: MarkReply, send: MockSend, finish: FinishReply)

  /** The same events as the retry loop would meet them. */
  function AsEnv(env: MockEnv): Env {
    var send := match env.send
      case Prepared(usage) => Responded(usage)
      case SleepCancelledHere => SendCancelled
      case SimulatedError(retryable) => AdapterFailed(false, retryable)
      case SleepRaised => SendRaised;
    Env(env.reserve, env.mark, send, env.finish, false)
  }

  /** Reserve and mark; `proceed` says whether the mock goes on to its answer. */
  method OpenPermit(controlled: bool, n: nat, env: MockEnv) returns (trace: seq<Call>, proceed: bool, failure: Reason)
    requires 1 <= n
    ensures proceed ==> trace == if controlled then [Reserve(n, true, true), MarkSend(n, true, true)] else []
    ensures !proceed ==> controlled && Attempt(true, n - 1, n, AsEnv(env)) == (trace, Stop(Raised(failure)))
    ensures proceed <==> !controlled || (env.reserve.Granted? && env.mark.MarkedStarted?)
  {
    if !controlled {
      return [], true, Unexpected;
    }
    if env.reserve.ReserveRaised? {
      return [Reserve(n, env.reserve.committed, false)], false, ReserveFailed;
    }
    match env.mark {
      case MarkCancelled(committed) => return [Reserve(n, true, true), MarkSend(n, committed, false)], false, SendStartUnknown;
      case MarkUnknown(committed) => return [Reserve(n, true, true), MarkSend(n, committed, false)], false, SendStartUnknown;
      case MarkRaised =>
        var raised;
        trace, raised := FinishAttempt(true, n, ReleasedPreSend, MarkSendFailed, NO_USAGE, env.finish,
                                       [Reserve(n, true, true), MarkSend(n, false, false)]);
        return trace, false, if raised then FinishFailed else SendStartFailed;
      case MarkedStarted =>
        trace := [Reserve(n, true, true), MarkSend(n, true, true)];
        proceed, failure := true, Unexpected;
    }
  }

  /** What the mock does once its permit, if any, is marked. */
  method Answer(controlled: bool, n: nat, env: MockEnv, sent: seq<Call>) returns (trace: seq<Call>, result: Result)
    requires 1 <= n
    ensures trace == sent + AfterSend(controlled, n - 1, n, AsEnv(env)).0
    ensures Stop(result) == AfterSend(controlled, n - 1, n, AsEnv(env)).1
  {
    var raised;
    match env.send {
      case SleepCancelledHere =>
        trace, raised := FinishAttempt(controlled, n, SettledConservative, CancelledOutcome, NO_USAGE, env.finish, sent);
        return trace, Raised(CancelledRun);
      case SimulatedError(_) =>
        trace, raised := FinishAttempt(controlled, n, SettledConservative, ProviderResponseError, NO_USAGE, env.finish, sent);
        return trace, Raised(if raised then FinishFailed else Adapter);
      case SleepRaised =>
        trace, raised := FinishAttempt(controlled, n, SettledConservative, UnexpectedError, NO_USAGE, env.finish, sent);
        return trace, Raised(if raised then FinishFailed else Unexpected);
      case Prepared(usage) =>
        var complete := usage.input.Some? && usage.output.Some?;
        trace, raised := FinishAttempt(controlled, n, if complete then SettledActual else SettledConservative,
                                       if complete then Succeeded else UsageIncomplete, usage, env.finish, sent);
        return trace, if raised then Raised(FinishFailed) else Returned(usage);
    }
  }

  /** The policy under which the given ordinal is the last. */
  function LastAttemptPolicy(controlled: bool, context: Option<int>): Config {
    Config(controlled, context, if context.Some? && context.value >= 1 then context.value - 1 else 0)
  }

  /** The mock's whole call makes exactly the calls, with exactly the result, of the retry loop's last attempt. */
  method RunMock(controlled: bool, context: Option<int>, env: MockEnv) returns (trace: seq<Call>, result: Result)
    ensures (trace, result) == Generate(LastAttemptPolicy(controlled, context), n => AsEnv(env))
  {
    var ordinal := 1;
    if !controlled {
      if context.Some? {
        return [], Raised(InvalidContext);
      }
    } else {
      if context == None || context.value < 1 {
        return [], Raised(InvalidContext);
      }
      ordinal := context.value;
    }
    var proceed, failure;
    trace, proceed, failure := OpenPermit(controlled, ordinal, env);
    if !proceed {
      return trace, Raised(failure);
    }
    trace, result := Answer(controlled, ordinal, env, trace + [Send(ordinal)]);
    assert trace == Attempt(controlled, ordinal - 1, ordinal, AsEnv(env)).0;
  }
}
