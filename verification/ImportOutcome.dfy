/**
 * The importer's exit code against what really happened to the target, for every
 * placement of failures around the copy transaction.
 */
module ImportOutcome {
  import opened Prelude

  /** What a step raises: an import error, a driver or filesystem error, another Exception, or a bare BaseException. */
  datatype Exc = ImportFailure | DatabaseFailure | OtherFailure | Interrupt {
    predicate IsException() { this != Interrupt }
    predicate Reported() { this == ImportFailure || this == DatabaseFailure }
  }

  /** Exceptions in flight, with the two the importer raises itself. */
  datatype Raised = Plain(exc: Exc) | CommitUnknown | CommittedUnverified {
    predicate IsException() { !(Plain? && exc == Interrupt) }
  }

  datatype CommitReply = Acknowledged | NotConfirmed(exc: Exc, took: bool)

  /**
   * What each step of a run meets; None is success.  `prepare` is everything up to the
   * source snapshot and its report, `copy` everything inside the transaction up to the
   * matching pre-commit summaries, `verify` the post-commit snapshot and report.
   */
  datatype Env = Env(
    prepare: Option<Exc>, connect: Option<Exc>, begin: Option<Exc>, copy: Option<Exc>, rollback: Option<Exc>,
    commit: CommitReply, close: Option<Exc>, verify: Option<Exc>, matches: bool, dispose: Option<Exc>, announce: Option<Exc>)

  datatype Target = Unchanged | Imported

  datatype Exit = Code(code: nat) | Uncaught

  predicate ReachesCommit(env: Env) { env.prepare == None && env.connect == None && env.begin == None && env.copy == None }

  predicate Took(c: CommitReply) { c.Acknowledged? || c.took }

  /** Leaving a `with` block: an exception from the close replaces the one in flight. */
  method LeaveWith(inFlight: Option<Raised>, close: Option<Exc>) returns (after: Option<Raised>)
    ensures after == if close.Some? then Some(Plain(close.value)) else inFlight
  {
    after := inFlight;
    if close.Some? {
      after := Some(Plain(close.value));
    }
  }

  /** The transaction block up to and including COMMIT, inside the connection's `with`. */
  method CopyTransaction(env: Env) returns (raised: Option<Raised>, confirmed: bool, target: Target)
    ensures target == if env.begin == None && env.copy == None && Took(env.commit) then Imported else Unchanged
    ensures confirmed <==> env.begin == None && env.copy == None && env.commit.Acknowledged?
    ensures raised == None <==> confirmed
    ensures env.begin == None && env.copy == None && env.commit.NotConfirmed? ==>
              raised == Some(if env.commit.exc.IsException() then CommitUnknown else Plain(Interrupt))
    ensures env.begin.Some? ==> raised == Some(Plain(env.begin.value))
    ensures env.begin == None && env.copy.Some? ==>
              raised == Some(Plain(if env.copy != Some(Interrupt) && env.rollback.Some? then env.rollback.value else env.copy.value))
  {
    confirmed, target := false, Unchanged;
    if env.begin.Some? {
      return Some(Plain(env.begin.value)), false, Unchanged;
    }
    if env.copy.Some? {
      raised := Some(Plain(env.copy.value));
      if env.copy.value.IsException() && env.rollback.Some? {
        raised := Some(Plain(env.rollback.value));
      }
      return;
    }
    match env.commit {
      case Acknowledged =>
        raised, confirmed, target := None, true, Imported;
      case NotConfirmed(exc, took) =>
        target := if took then Imported else Unchanged;
        raised := Some(if exc.IsException() then CommitUnknown else Plain(exc));
    }
  }

  /** The copy phase with its connection and handlers. */
  method CopyPhase(env: Env) returns (raised: Option<Raised>, target: Target)
    ensures target == if env.connect == None && env.begin == None && env.copy == None && Took(env.commit) then Imported else Unchanged
    ensures env.connect.Some? ==> raised == Some(Plain(env.connect.value))
    ensures env.connect == None && env.close.Some? ==>
              raised == Some(if env.begin == None && env.copy == None && env.commit.Acknowledged? && env.close.value.IsException()
                             then CommittedUnverified else Plain(env.close.value))
    ensures env.connect == None && env.close == None && env.begin == None && env.copy == None ==>
              raised == if env.commit.Acknowledged? then None
                        else Some(if env.commit.exc.IsException() then CommitUnknown else Plain(Interrupt))
    ensures env.connect == None && env.close == None && env.begin.Some? ==> raised == Some(Plain(env.begin.value))
    ensures env.connect == None && env.close == None && env.begin == None && env.copy.Some? ==>
              raised == Some(Plain(if env.copy != Some(Interrupt) && env.rollback.Some? then env.rollback.value else env.copy.value))
  {
    if env.connect.Some? {
      return Some(Plain(env.connect.value)), Unchanged;
    }
    var confirmed;
    raised, confirmed, target := CopyTransaction(env);
    raised := LeaveWith(raised, env.close);
    if raised.Some? && raised.value != CommitUnknown && raised.value.IsException() && confirmed {
      raised := Some(CommittedUnverified);
    }
  }

  /** The post-commit check and its handler. */
  method VerifyPhase(env: Env) returns (raised: Option<Raised>)
    ensures raised == None <==> env.verify == None && env.matches
    ensures raised.Some? ==> raised == Some(if env.verify == Some(Interrupt) then Plain(Interrupt) else CommittedUnverified)
  {
    var exc := env.verify;
    if exc == None && !env.matches {
      exc := Some(ImportFailure);
    }
    if exc == None {
      return None;
    }
    if exc.value.IsException() {
      return Some(CommittedUnverified);
    }
    raised := Some(Plain(exc.value));
  }

  /** The exit code the handlers of the command line give to what escapes the import. */
  method ReportFailure(raised: Raised) returns (exit: Exit)
    ensures exit == match raised
                    case CommitUnknown => Code(4)
                    case CommittedUnverified => Code(3)
                    case Plain(exc) => if exc.Reported() then Code(2) else Uncaught
  {
    match raised {
      case CommitUnknown => exit := Code(4);
      case CommittedUnverified => exit := Code(3);
      case Plain(exc) =>
        if exc == ImportFailure || exc == DatabaseFailure {
          exit := Code(2);
        } else {
          exit := Uncaught;
        }
    }
  }

  /** An error of the close while another exception unwinds hides a COMMIT that took effect without acknowledgement. */
  predicate HiddenCommit(env: Env) {
    && ReachesCommit(env) && env.commit.NotConfirmed? && env.commit.took
    && env.close.Some? && env.close.value.Reported()
    && env.dispose != Some(Interrupt)
  }

  /**
   * An ordinary failure is what ends the run: of a step before COMMIT, of a rollback
   * after it, or of the close when no acknowledged COMMIT went before; and it is an
   * import, driver or filesystem error.
   */
  predicate OrdinaryFailure(env: Env) {
    if env.prepare.Some? then env.prepare.value.Reported()
    else if env.connect.Some? then env.connect.value.Reported()
    else if env.close.Some? then env.close.value.Reported() && !(ReachesCommit(env) && env.commit.Acknowledged?)
    else if env.begin.Some? then env.begin.value.Reported()
    else
      env.copy.Some?
      && if env.copy != Some(Interrupt) && env.rollback.Some? then env.rollback.value.Reported() else env.copy.value.Reported()
  }

  /**
   * The whole command.  Exit 0 is a committed and reconciled import with nothing gone
   * wrong; 3 is an acknowledged COMMIT with a later failure; 4 is a COMMIT that was
   * issued and not acknowledged, and nothing else; 2 leaves the target unchanged, except
   * exactly in a hidden commit.
   */
  method RunImport(env: Env) returns (exit: Exit, target: Target)
    ensures target == Imported <==> ReachesCommit(env) && Took(env.commit)
    ensures exit == Code(0) <==>
            && ReachesCommit(env) && env.commit.Acknowledged? && env.close == None
            && env.verify == None && env.matches && env.dispose != Some(Interrupt) && env.announce == None
    ensures exit == Code(3) <==>
            && ReachesCommit(env) && env.commit.Acknowledged? && env.dispose != Some(Interrupt)
            && (if env.close.Some? then env.close.value.IsException()
                else env.verify != Some(Interrupt) && (env.verify.Some? || !env.matches))
    ensures exit == Code(4) <==>
            && ReachesCommit(env) && env.commit.NotConfirmed? && env.commit.exc.IsException()
            && env.close == None && env.dispose != Some(Interrupt)
    ensures exit == Code(2) <==> OrdinaryFailure(env) && env.dispose != Some(Interrupt)
    ensures exit == Code(2) && target == Imported <==> HiddenCommit(env)
    ensures exit == Uncaught || exit.code in {0, 2, 3, 4}
  {
    var raised: Option<Raised> := None;
    target := Unchanged;
    if env.prepare.Some? {
      raised := Some(Plain(env.prepare.value));
    } else {
      raised, target := CopyPhase(env);
      if raised == None {
        raised := VerifyPhase(env);
      }
    }
    if env.dispose == Some(Interrupt) {
      raised := Some(Plain(Interrupt));
    }
    if raised.Some? {
      exit := ReportFailure(raised.value);
    } else if env.announce.Some? {
      exit := Uncaught;
    } else {
      exit := Code(0);
    }
  }

  /** A run that reports "import failed" over a fully imported target. */
  method HiddenCommitExample() returns (exit: Exit, target: Target)
    ensures exit == Code(2) && target == Imported
  {
    var env := Env(None, None, None, None, None, NotConfirmed(DatabaseFailure, true), Some(DatabaseFailure), None, true, None, None);
    exit, target := RunImport(env);
  }
}
