/**
 * Every interleaving of note, start, flush, stop and cancellation, with writes that may
 * fail or commit without acknowledgement.
 *
 * A write runs in a thread of its own: it reads the database clock, and later commits or
 * fails.  Cancelling the call that awaits it releases the flush lock and skips the
 * handler, but the thread runs on.
 */
module WorkerInterleavings {
  import opened Prelude
  import opened WorkerProgress

  type Id = nat

  /** How far a thread has come with its transaction. */
  datatype Write = Reading | Committing(now: Time) | Ended(acknowledged: bool)

  /** A call; a write that nothing awaits any more belongs to a cancelled one. */
  datatype Call =
    | StartEntered
    | Starting(write: Write, awaited: bool)
    | FlushWaiting
    | StopEntered
    | StopWaiting
    | Writing(stop: bool, captured: set<Event>, since: Time, write: Write, awaited: bool)
    | Returned(result: bool)
    | StopReturned(result: bool)
    | Cancelled

  datatype Action =
    | Tick(elapsed: nat)
    | Note(event: Event)
    | Advance(id: Id, end: WriteEnd)
    | Cancel(id: Id)

  type Notice = (Event, Time)

  /** `accepted` lists every accepted note with its time. */
  datatype Sys = Sys(
    recorder: Recorder,
    row: Option<Row>,
    clock: Time,
    lock: Option<Id>,
    calls: map<Id, Call>,
    accepted: set<Notice>)

  predicate Holding(c: Call) { c.Writing? && c.awaited }

  function With(s: Sys, id: Id, c: Call): Sys { s.(calls := s.calls[id := c]) }

  /** The row a write would leave, or None when no active row matches. */
  function Target(row: Option<Row>, c: Call, now: Time): Option<Row>
    requires c.Writing?
  {
    if c.stop then StoppedRow(row, c.captured, now) else Flushed(row, c.captured, now)
  }

  /** The transaction takes effect: it is not lost, it matches a row, and the CHECK constraints admit the result. */
  predicate Commits(s: Sys, c: Call, end: WriteEnd) {
    && c.Writing? && c.write.Committing? && end != NotCommitted
    && Target(s.row, c, c.write.now).Some? && RowValid(Target(s.row, c, c.write.now).value)
  }

  function AdvanceStart(s: Sys, id: Id, write: Write, awaited: bool, end: WriteEnd): Sys {
    match write
    case Reading => With(s, id, Starting(Committing(s.clock), awaited))
    case Committing(now) =>
      var inserted := s.row == None && end != NotCommitted;
      var t := if inserted then s.(row := Some(Registered(now))) else s;
      With(t, id, if awaited then Starting(Ended(inserted && end == Committed), true) else Cancelled)
    case Ended(ok) =>
      With(if ok then s.(recorder := s.recorder.(registered := true)) else s, id, Returned(ok))
  }

  function AdvanceWrite(s: Sys, id: Id, c: Call, end: WriteEnd): Sys
    requires c.Writing?
  {
    match c.write
    case Reading => With(s, id, Writing(c.stop, c.captured, c.since, Committing(s.clock), c.awaited))
    case Committing(now) =>
      var took := Commits(s, c, end);
      var t := if took then s.(row := Target(s.row, c, now)) else s;
      With(t, id, if c.awaited then Writing(c.stop, c.captured, c.since, Ended(took && end == Committed), true) else Cancelled)
    case Ended(ok) =>
      var r := if !ok then Restored(s.recorder, c.captured) else if c.stop then s.recorder.(stopped := true) else s.recorder;
      With(s.(recorder := r, lock := None), id, if c.stop then StopReturned(ok) else Returned(ok))
  }

  function AdvanceCall(s: Sys, id: Id, end: WriteEnd): Sys
    requires id in s.calls
  {
    match s.calls[id]
    case StartEntered => With(s, id, if s.recorder.registered then Returned(false) else Starting(Reading, true))
    case Starting(write, awaited) => AdvanceStart(s, id, write, awaited, end)
    case FlushWaiting =>
      if s.lock.Some? then s
      else
        var (r, captured) := TakeForFlush(s.recorder);
        if captured == None then With(s, id, Returned(false))
        else With(s.(recorder := r, lock := Some(id)), id, Writing(false, captured.value, s.clock, Reading, true))
    case StopEntered =>
      if !s.recorder.registered || s.recorder.stopped then With(s, id, StopReturned(false))
      else With(s.(recorder := s.recorder.(stopping := true)), id, StopWaiting)
    case StopWaiting =>
      if s.lock.Some? then s
      else
        var (r, captured) := TakeForStop(s.recorder);
        if captured == None then With(s, id, StopReturned(false))
        else With(s.(recorder := r, lock := Some(id)), id, Writing(true, captured.value, s.clock, Reading, true))
    case Writing(_, _, _, _, _) => AdvanceWrite(s, id, s.calls[id], end)
    case _ => s
  }

  /** A call is cancelled at its await: locks are released, handlers skipped, threads left alone. */
  function CancelCall(s: Sys, id: Id): Sys
    requires id in s.calls
  {
    match s.calls[id]
    case Starting(write, true) => With(s, id, if write.Ended? then Cancelled else Starting(write, false))
    case FlushWaiting => With(s, id, Cancelled)
    case StopWaiting => With(s, id, Cancelled)
    case Writing(stop, captured, since, write, true) =>
      With(s.(lock := None), id, if write.Ended? then Cancelled else Writing(stop, captured, since, write, false))
    case _ => s
  }

  function Step(s: Sys, a: Action): Sys {
    match a
    case Tick(elapsed) => s.(clock := s.clock + elapsed)
    case Note(e) =>
      if Accepting(s.recorder)
      then s.(recorder := Noted(s.recorder, e), accepted := s.accepted + {(e, s.clock)})
      else s
    case Advance(id, end) => if id in s.calls then AdvanceCall(s, id, end) else s
    case Cancel(id) => if id in s.calls then CancelCall(s, id) else s
  }

  function Run(s: Sys, actions: seq<Action>): Sys
    decreases |actions|
  {
    if actions == [] then s else Run(Step(s, actions[0]), actions[1..])
  }

  /** A fresh recorder, no row, and any number of calls about to begin. */
  predicate Initial(s: Sys) {
    && s.recorder == NEW && s.row == None && s.lock == None && s.accepted == {}
    && forall id :: id in s.calls ==> s.calls[id].StartEntered? || s.calls[id].FlushWaiting? || s.calls[id].StopEntered?
  }

  // ----- Where an accepted note is -----

  predicate Stored(s: Sys, n: Notice) {
    s.row.Some? && n.0 in s.row.value.stamps && s.row.value.stamps[n.0] >= n.1
  }

  /** A write that captured the note and may still commit it or give it back. */
  predicate Carries(c: Call, n: Notice) {
    && c.Writing? && n.0 in c.captured && n.1 <= c.since
    && (!c.write.Ended? || (c.awaited && !c.write.acknowledged))
  }

  predicate InFlight(s: Sys, n: Notice) { exists id :: id in s.calls && Carries(s.calls[id], n) }

  /** Neither pending, nor in flight, nor stored at its time or later. */
  predicate Lost(s: Sys, n: Notice) {
    n.0 !in s.recorder.pending && !InFlight(s, n) && !Stored(s, n)
  }

  predicate RowStopped(s: Sys) { s.row.Some? && s.row.value.stoppedAt.Some? }

  // ----- The invariant -----

  /** The calls that await a write under the lock are one: the lock's holder. */
  predicate LockInv(s: Sys) {
    && (forall id :: id in s.calls && Holding(s.calls[id]) ==> s.lock == Some(id))
    && (s.lock.Some? ==> s.lock.value in s.calls && Holding(s.calls[s.lock.value]) && s.recorder.registered && !s.recorder.stopped)
  }

  /** Notes, captures and clock readings are in order. */
  predicate Timely(s: Sys) {
    && (forall n :: n in s.accepted ==> n.1 <= s.clock)
    && (forall id :: id in s.calls && s.calls[id].Writing? ==> TimelyWrite(s.calls[id], s.clock))
    && (forall id :: id in s.calls && s.calls[id].Starting? ==>
          && (s.calls[id].write.Committing? ==> s.calls[id].write.now <= s.clock)
          && (s.calls[id].write.Ended? ==> s.calls[id].awaited))
  }

  predicate TimelyWrite(c: Call, clock: Time)
    requires c.Writing?
  {
    && c.since <= clock
    && (c.write.Committing? ==> c.since <= c.write.now <= clock)
    && (c.write.Ended? ==> c.awaited)
  }

  /** Stopping closes the recorder for notes, and stops once. */
  predicate StopInv(s: Sys) {
    && (forall id :: id in s.calls && s.calls[id].StopWaiting? ==> s.recorder.stopping)
    && (forall id :: id in s.calls && Holding(s.calls[id]) && s.calls[id].stop ==>
          && s.recorder.pending == {} && s.recorder.stopping
          && (s.calls[id].write == Ended(true) ==> RowStopped(s)))
    && (s.recorder.stopped ==> s.recorder.pending == {} && s.recorder.stopping && s.recorder.registered && RowStopped(s))
    && (!s.recorder.registered ==> s.recorder.pending == {})
    && (forall id :: id in s.calls && s.calls[id] == StopReturned(true) ==> s.recorder.stopped)
    && (forall i, j :: i in s.calls && j in s.calls && s.calls[i] == StopReturned(true) && s.calls[j] == StopReturned(true) ==> i == j)
  }

  predicate RowInv(s: Sys) {
    && (s.row.Some? ==>
          && RowValid(s.row.value) && s.row.value.lastSeenAt <= s.clock
          && (s.row.value.stoppedAt.Some? ==> s.row.value.stoppedAt.value <= s.clock))
    && (s.recorder.registered ==> s.row.Some?)
    && (forall id :: id in s.calls && s.calls[id].Starting? && s.calls[id].write == Ended(true) ==> s.row.Some?)
  }

  predicate Inv(s: Sys) { Timely(s) && LockInv(s) && StopInv(s) && RowInv(s) }

  lemma InvInitial(s: Sys)
    requires Initial(s)
    ensures Inv(s)
  {
  }

  lemma OutsideStep(s: Sys, a: Action)
    requires Inv(s) && (a.Tick? || a.Note?)
    ensures Inv(Step(s, a))
  {
  }

  lemma BeginStep(s: Sys, id: Id, end: WriteEnd)
    requires Inv(s) && id in s.calls && s.calls[id].StartEntered?
    ensures Inv(AdvanceCall(s, id, end))
  {
  }

  lemma StartReadStep(s: Sys, id: Id, end: WriteEnd)
    requires Inv(s) && id in s.calls && s.calls[id].Starting? && s.calls[id].write.Reading?
    ensures Inv(AdvanceCall(s, id, end))
  {
  }

  lemma InsertStep(s: Sys, id: Id, end: WriteEnd)
    requires Inv(s) && id in s.calls && s.calls[id].Starting? && s.calls[id].write.Committing?
    ensures Inv(AdvanceCall(s, id, end))
  {
  }

  lemma RegisterStep(s: Sys, id: Id, end: WriteEnd)
    requires Inv(s) && id in s.calls && s.calls[id].Starting? && s.calls[id].write.Ended?
    ensures Inv(AdvanceCall(s, id, end))
  {
  }

  lemma FlushCaptureStep(s: Sys, id: Id, end: WriteEnd)
    requires Inv(s) && id in s.calls && s.calls[id].FlushWaiting?
    ensures Inv(AdvanceCall(s, id, end))
  {
  }

  lemma StopCaptureStep(s: Sys, id: Id, end: WriteEnd)
    requires Inv(s) && id in s.calls && s.calls[id].StopWaiting?
    ensures Inv(AdvanceCall(s, id, end))
  {
  }

  lemma EnterStep(s: Sys, id: Id, end: WriteEnd)
    requires Inv(s) && id in s.calls && s.calls[id].StopEntered?
    ensures Inv(AdvanceCall(s, id, end))
  {
  }

  lemma ReadStep(s: Sys, id: Id, end: WriteEnd)
    requires Inv(s) && id in s.calls && s.calls[id].Writing? && s.calls[id].write.Reading?
    ensures Inv(AdvanceCall(s, id, end))
  {
  }

  predicate AtCommit(s: Sys, id: Id) { Inv(s) && id in s.calls && s.calls[id].Writing? && s.calls[id].write.Committing? }

  lemma CommitTimes(s: Sys, id: Id, end: WriteEnd)
    requires AtCommit(s, id)
    ensures Timely(AdvanceCall(s, id, end)) && LockInv(AdvanceCall(s, id, end))
  {
  }

  lemma CommitStops(s: Sys, id: Id, end: WriteEnd)
    requires AtCommit(s, id)
    ensures StopInv(AdvanceCall(s, id, end))
  {
  }

  lemma CommitRow(s: Sys, id: Id, end: WriteEnd)
    requires AtCommit(s, id)
    ensures RowInv(AdvanceCall(s, id, end))
  {
  }

  lemma CommitStep(s: Sys, id: Id, end: WriteEnd)
    requires AtCommit(s, id)
    ensures Inv(AdvanceCall(s, id, end))
  {
    CommitTimes(s, id, end);
    CommitStops(s, id, end);
    CommitRow(s, id, end);
  }

  lemma SettleStep(s: Sys, id: Id, end: WriteEnd)
    requires Inv(s) && id in s.calls && s.calls[id].Writing? && s.calls[id].write.Ended?
    ensures Inv(AdvanceCall(s, id, end))
  {
  }

  lemma CancelWriteStep(s: Sys, id: Id)
    requires Inv(s) && id in s.calls && s.calls[id].Writing?
    ensures Inv(CancelCall(s, id))
  {
  }

  lemma CancelStartStep(s: Sys, id: Id)
    requires Inv(s) && id in s.calls && s.calls[id].Starting?
    ensures Inv(CancelCall(s, id))
  {
  }

  lemma CancelWaitStep(s: Sys, id: Id)
    requires Inv(s) && id in s.calls && (s.calls[id].FlushWaiting? || s.calls[id].StopWaiting?)
    ensures Inv(CancelCall(s, id))
  {
  }

  lemma AdvanceKeepsInv(s: Sys, id: Id, end: WriteEnd)
    requires Inv(s) && id in s.calls
    ensures Inv(AdvanceCall(s, id, end))
  {
    match s.calls[id]
    case StartEntered => BeginStep(s, id, end);
    case Starting(Reading, _) => StartReadStep(s, id, end);
    case Starting(Committing(_), _) => InsertStep(s, id, end);
    case Starting(Ended(_), _) => RegisterStep(s, id, end);
    case FlushWaiting => FlushCaptureStep(s, id, end);
    case StopWaiting => StopCaptureStep(s, id, end);
    case StopEntered => EnterStep(s, id, end);
    case Writing(_, _, _, Reading, _) => ReadStep(s, id, end);
    case Writing(_, _, _, Committing(_), _) => CommitStep(s, id, end);
    case Writing(_, _, _, Ended(_), _) => SettleStep(s, id, end);
    case _ =>
  }

  lemma InvStep(s: Sys, a: Action)
    requires Inv(s)
    ensures Inv(Step(s, a))
  {
    match a
    case Tick(_) => OutsideStep(s, a);
    case Note(_) => OutsideStep(s, a);
    case Cancel(id) =>
      if id in s.calls {
        match s.calls[id]
        case Writing(_, _, _, _, _) => CancelWriteStep(s, id);
        case Starting(_, _) => CancelStartStep(s, id);
        case FlushWaiting => CancelWaitStep(s, id);
        case StopWaiting => CancelWaitStep(s, id);
        case _ =>
      }
    case Advance(id, end) =>
      if id in s.calls {
        AdvanceKeepsInv(s, id, end);
      }
  }

  lemma {:induction false} InvRun(s: Sys, actions: seq<Action>)
    requires Inv(s)
    ensures Inv(Run(s, actions))
    decreases |actions|
  {
    if actions != [] {
      InvStep(s, actions[0]);
      InvRun(Step(s, actions[0]), actions[1..]);
    }
  }

  // ----- Exactly when a note is lost -----

  /** The note is kept by something else than call `id`. */
  predicate Elsewhere(s: Sys, id: Id, n: Notice) {
    n.0 in s.recorder.pending || CarriedByOther(s, id, n)
  }

  /**
   * The steps that lose a note that was not lost:
   * - the cancellation of a call whose write has failed, before it gives its bits back;
   * - the end, without effect, of a write that nothing awaits any more;
   * - the commit of a write that read the clock before the note, over a later stamp.
   */
  predicate Loses(s: Sys, a: Action, n: Notice) {
    match a
    case Cancel(id) =>
      && id in s.calls && Carries(s.calls[id], n) && s.calls[id].write.Ended?
      && !Elsewhere(s, id, n) && !Stored(s, n)
    case Advance(id, end) =>
      && id in s.calls && s.calls[id].Writing? && s.calls[id].write.Committing? && !Elsewhere(s, id, n)
      && if Commits(s, s.calls[id], end)
         then n.0 in s.calls[id].captured && s.calls[id].write.now < n.1
         else !s.calls[id].awaited && Carries(s.calls[id], n) && !Stored(s, n)
    case _ => false
  }

  /** The steps that cover a lost note again: a later note, bits given back, or a commit, of its kind. */
  predicate Recovers(s: Sys, a: Action, n: Notice) {
    match a
    case Note(e) => Accepting(s.recorder) && e == n.0
    case Advance(id, end) =>
      && id in s.calls && s.calls[id].Writing? && n.0 in s.calls[id].captured
      && (|| (s.calls[id].write.Committing? && Commits(s, s.calls[id], end) && n.1 <= s.calls[id].write.now)
          || s.calls[id].write == Ended(false))
    case _ => false
  }

  /** A note changes between kept and lost in exactly these steps. */
  predicate LossFollows(s: Sys, a: Action, n: Notice) {
    Lost(Step(s, a), n) <==> if Lost(s, n) then !Recovers(s, a, n) else Loses(s, a, n)
  }

  predicate CarriedByOther(s: Sys, id: Id, n: Notice) {
    exists other :: other in s.calls && other != id && Carries(s.calls[other], n)
  }

  /** What one call's change means for what is in flight. */
  lemma InFlightChange(s: Sys, t: Sys, id: Id, n: Notice)
    requires id in s.calls && id in t.calls && t.calls == s.calls[id := t.calls[id]]
    ensures InFlight(s, n) <==> Carries(s.calls[id], n) || CarriedByOther(s, id, n)
    ensures InFlight(t, n) <==> Carries(t.calls[id], n) || CarriedByOther(s, id, n)
  {
    if CarriedByOther(s, id, n) {
      var other :| other in s.calls && other != id && Carries(s.calls[other], n);
      assert Carries(t.calls[other], n);
    }
    if InFlight(t, n) && !Carries(t.calls[id], n) {
      var other :| other in t.calls && Carries(t.calls[other], n);
      assert other != id && Carries(s.calls[other], n);
    }
  }

  lemma LossOutside(s: Sys, a: Action, n: Notice)
    requires Inv(s) && n in s.accepted && (a.Tick? || a.Note?)
    ensures LossFollows(s, a, n)
  {
    assert InFlight(s, n) <==> InFlight(Step(s, a), n);
  }

  lemma LossCancel(s: Sys, id: Id, n: Notice)
    requires Inv(s) && n in s.accepted && id in s.calls
    ensures LossFollows(s, Cancel(id), n)
  {
    InFlightChange(s, CancelCall(s, id), id, n);
  }

  lemma LossStart(s: Sys, id: Id, end: WriteEnd, n: Notice)
    requires Inv(s) && n in s.accepted && id in s.calls && (s.calls[id].StartEntered? || s.calls[id].Starting?)
    ensures LossFollows(s, Advance(id, end), n)
  {
    InFlightChange(s, AdvanceCall(s, id, end), id, n);
  }

  lemma LossCapture(s: Sys, id: Id, end: WriteEnd, n: Notice)
    requires Inv(s) && n in s.accepted && id in s.calls && (s.calls[id].FlushWaiting? || s.calls[id].StopWaiting? || s.calls[id].StopEntered?)
    ensures LossFollows(s, Advance(id, end), n)
  {
    InFlightChange(s, AdvanceCall(s, id, end), id, n);
  }

  lemma LossRead(s: Sys, id: Id, end: WriteEnd, n: Notice)
    requires Inv(s) && n in s.accepted && id in s.calls && s.calls[id].Writing? && s.calls[id].write.Reading?
    ensures LossFollows(s, Advance(id, end), n)
  {
    InFlightChange(s, AdvanceCall(s, id, end), id, n);
  }

  lemma LossCommit(s: Sys, id: Id, end: WriteEnd, n: Notice)
    requires Inv(s) && n in s.accepted && id in s.calls && s.calls[id].Writing? && s.calls[id].write.Committing?
    ensures LossFollows(s, Advance(id, end), n)
  {
    InFlightChange(s, AdvanceCall(s, id, end), id, n);
    assert TimelyWrite(s.calls[id], s.clock);
  }

  lemma LossSettle(s: Sys, id: Id, end: WriteEnd, n: Notice)
    requires Inv(s) && n in s.accepted && id in s.calls && s.calls[id].Writing? && s.calls[id].write.Ended?
    ensures LossFollows(s, Advance(id, end), n)
  {
    InFlightChange(s, AdvanceCall(s, id, end), id, n);
    assert TimelyWrite(s.calls[id], s.clock);
  }

  /**
   * Exactly when a note is lost: in every reachable state and for every step, a kept
   * note is lost if and only if the step is one of `Loses`, and a lost one stays lost
   * unless the step is one of `Recovers`.
   */
  lemma LostExactlyWhen(s: Sys, actions: seq<Action>, a: Action, n: Notice)
    requires Initial(s) && n in Run(s, actions).accepted
    ensures LossFollows(Run(s, actions), a, n)
  {
    InvInitial(s);
    InvRun(s, actions);
    LossStep(Run(s, actions), a, n);
  }

  lemma LossStep(s: Sys, a: Action, n: Notice)
    requires Inv(s) && n in s.accepted
    ensures LossFollows(s, a, n)
  {
    match a
    case Tick(_) => LossOutside(s, a, n);
    case Note(_) => LossOutside(s, a, n);
    case Cancel(id) => if id in s.calls { LossCancel(s, id, n); }
    case Advance(id, end) =>
      if id in s.calls {
        match s.calls[id]
        case StartEntered => LossStart(s, id, end, n);
        case Starting(_, _) => LossStart(s, id, end, n);
        case FlushWaiting => LossCapture(s, id, end, n);
        case StopWaiting => LossCapture(s, id, end, n);
        case StopEntered => LossCapture(s, id, end, n);
        case Writing(_, _, _, Reading, _) => LossRead(s, id, end, n);
        case Writing(_, _, _, Committing(_), _) => LossCommit(s, id, end, n);
        case Writing(_, _, _, Ended(_), _) => LossSettle(s, id, end, n);
        case _ =>
      }
  }
}
