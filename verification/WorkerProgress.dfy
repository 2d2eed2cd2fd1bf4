/**
 * The worker progress recorder: coalesced event bits, a database row, and the
 * atomic segments that the two locks leave between them.
 */
module WorkerProgress {
  import opened Prelude

  datatype Event = Scan | Claim | Progress | LeaseHeartbeat

  type Time = int

  // ----- The database row -----

  /** One generation's row; `stamps` are the four nullable event columns. */
  datatype Row = Row(startedAt: Time, lastSeenAt: Time, stamps: map<Event, Time>, stoppedAt: Option<Time>)

  /** The table's CHECK constraints. */
  predicate RowValid(r: Row) {
    && r.startedAt <= r.lastSeenAt
    && (forall e :: e in r.stamps ==> r.startedAt <= r.stamps[e] <= r.lastSeenAt)
    && (r.stoppedAt.Some? ==> r.lastSeenAt <= r.stoppedAt.value)
  }

  /** How a database transaction ends, as seen by its caller. */
  datatype WriteEnd = Committed | NotCommitted | CommittedUnacknowledged

  function EventValues(pending: set<Event>, now: Time): map<Event, Time> { map e | e in pending :: now }

  function Registered(now: Time): Row { Row(now, now, map[], None) }

  /** The row after a flush, or None when no active row matches. */
  function Flushed(row: Option<Row>, pending: set<Event>, now: Time): Option<Row> {
    if row == None || row.value.stoppedAt.Some? then None
    else Some(row.value.(lastSeenAt := now, stamps := row.value.stamps + EventValues(pending, now)))
  }

  function StoppedRow(row: Option<Row>, pending: set<Event>, now: Time): Option<Row> {
    if row == None || row.value.stoppedAt.Some? then None
    else if pending == {} then Some(row.value.(stoppedAt := Some(now)))
    else Some(row.value.(lastSeenAt := now, stamps := row.value.stamps + EventValues(pending, now), stoppedAt := Some(now)))
  }

  // ----- The recorder's own state -----

  datatype Recorder = Recorder(pending: set<Event>, registered: bool, stopping: bool, stopped: bool)

  const NEW := Recorder({}, false, false, false)

  predicate Accepting(r: Recorder) { r.registered && !r.stopping && !r.stopped }

  function Noted(r: Recorder, e: Event): Recorder {
    if Accepting(r) then r.(pending := r.pending + {e}) else r
  }

  /** Take the pending bits for a flush, if there is anything to flush. */
  function TakeForFlush(r: Recorder): (Recorder, Option<set<Event>>) {
    if !Accepting(r) || r.pending == {} then (r, None) else (r.(pending := {}), Some(r.pending))
  }

  function TakeForStop(r: Recorder): (Recorder, Option<set<Event>>) {
    if !r.registered || r.stopped then (r, None) else (r.(pending := {}), Some(r.pending))
  }

  function Restored(r: Recorder, captured: set<Event>): Recorder { r.(pending := r.pending + captured) }

  // ----- The objects, segment by segment -----

  class WorkerProcessRow {
    var row: Option<Row>

    constructor ()
      ensures row == None
    {
      row := None;
    }

    method Register(now: Time) returns (ok: bool)
      modifies this
      ensures ok <==> old(row) == None
      ensures row == if ok then Some(Registered(now)) else old(row)
    {
      if row != None { return false; }
      row := Some(Row(now, now, map[], None));
      ok := true;
    }

    /** The UPDATE of a flush; false when it matches no row and is rolled back. */
    method Flush(pending: set<Event>, now: Time) returns (ok: bool)
      modifies this
      ensures ok <==> Flushed(old(row), pending, now).Some?
      ensures row == if ok then Flushed(old(row), pending, now) else old(row)
    {
      if row == None || row.value.stoppedAt != None { return false; }
      var values := EventValues(pending, now);
      row := Some(row.value.(lastSeenAt := now, stamps := row.value.stamps + values));
      ok := true;
    }

    method Stop(pending: set<Event>, now: Time) returns (ok: bool)
      modifies this
      ensures ok <==> StoppedRow(old(row), pending, now).Some?
      ensures row == if ok then StoppedRow(old(row), pending, now) else old(row)
    {
      if row == None || row.value.stoppedAt != None { return false; }
      var next := row.value.(stoppedAt := Some(now));
      if pending != {} {
        next := next.(lastSeenAt := now, stamps := next.stamps + EventValues(pending, now));
      }
      row := Some(next);
      ok := true;
    }
  }

  class WorkerProgressRecorder {
    var pending: set<Event>
    var registered: bool
    var stopping: bool
    var stopped: bool

    ghost function State(): Recorder
      reads this
    {
      Recorder(pending, registered, stopping, stopped)
    }

    constructor ()
      ensures State() == NEW
    {
      pending, registered, stopping, stopped := {}, false, false, false;
    }

    method Note(event: Event)
      modifies this
      ensures State() == Noted(old(State()), event)
    {
      if registered && !stopping && !stopped {
        pending := pending + {event};
      }
    }

    method CaptureForFlush() returns (captured: Option<set<Event>>)
      modifies this
      ensures (State(), captured) == TakeForFlush(old(State()))
    {
      if !registered || stopping || stopped || pending == {} {
        return None;
      }
      captured := Some(pending);
      pending := {};
    }

    /** A write failed, or its outcome is not known: keep the bits for a retry. */
    method Restore(captured: set<Event>)
      modifies this
      ensures State() == Restored(old(State()), captured)
    {
      pending := pending + captured;
    }

    method BeginStop() returns (proceed: bool)
      modifies this
      ensures proceed <==> old(registered) && !old(stopped)
      ensures State() == if proceed then old(State()).(stopping := true) else old(State())
    {
      if !registered || stopped {
        return false;
      }
      stopping := true;
      proceed := true;
    }

    method CaptureForStop() returns (captured: Option<set<Event>>)
      modifies this
      ensures (State(), captured) == TakeForStop(old(State()))
    {
      if !registered || stopped {
        return None;
      }
      captured := Some(pending);
      pending := {};
    }

    method MarkStopped()
      modifies this
      ensures State() == old(State()).(stopped := true)
    {
      stopped := true;
    }

    /** One undisturbed flush: nothing is lost, and True means the row has the bits. */
    method FlushOnce(db: WorkerProcessRow, now: Time, end: WriteEnd) returns (flushed: bool)
      modifies this, db
      ensures flushed <==>
              && Accepting(old(State())) && old(pending) != {}
              && Flushed(old(db.row), old(pending), now).Some? && end == Committed
      ensures State() == if flushed then old(State()).(pending := {}) else old(State())
      ensures db.row == if Accepting(old(State())) && old(pending) != {} && end != NotCommitted
                           && Flushed(old(db.row), old(pending), now).Some?
                        then Flushed(old(db.row), old(pending), now) else old(db.row)
    {
      var captured := CaptureForFlush();
      if captured == None {
        return false;
      }
      var ok := false;
      if end != NotCommitted {
        ok := db.Flush(captured.value, now);
      }
      if !ok || end == CommittedUnacknowledged {
        Restore(captured.value);
        return false;
      }
      flushed := true;
    }

    /** One undisturbed stop: True means stopped with every pending bit stored. */
    method StopOnce(db: WorkerProcessRow, now: Time, end: WriteEnd) returns (result: bool)
      modifies this, db
      ensures result <==> old(registered) && !old(stopped) && StoppedRow(old(db.row), old(pending), now).Some? && end == Committed
      ensures result ==> State() == Recorder({}, true, true, true)
      ensures !result ==> State() == old(State()).(stopping := old(stopping) || (old(registered) && !old(stopped)))
      ensures db.row == if old(registered) && !old(stopped) && end != NotCommitted
                           && StoppedRow(old(db.row), old(pending), now).Some?
                        then StoppedRow(old(db.row), old(pending), now) else old(db.row)
    {
      var proceed := BeginStop();
      if !proceed {
        return false;
      }
      var captured := CaptureForStop();
      var ok := false;
      if end != NotCommitted {
        ok := db.Stop(captured.value, now);
      }
      if !ok || end == CommittedUnacknowledged {
        Restore(captured.value);
        return false;
      }
      MarkStopped();
      result := true;
    }
  }
}
