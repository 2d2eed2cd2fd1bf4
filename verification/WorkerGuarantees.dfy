/**
 * What the worker progress recorder guarantees over whole runs: what holds in all of
 * them, what holds in those without a cancellation, and what a cancellation can do.
 */
module WorkerGuarantees {
  import opened Prelude
  import opened WorkerProgress
  import opened WorkerInterleavings

  predicate Uncancelled(actions: seq<Action>) { forall k :: 0 <= k < |actions| ==> !actions[k].Cancel? }

  // ----- No lost progress -----

  /** Without cancellations every write is awaited, so the lock's holder alone writes, with a current clock. */
  predicate Plain(s: Sys) {
    && (forall id :: id in s.calls && (s.calls[id].Writing? || s.calls[id].Starting?) ==> s.calls[id].awaited)
    && (forall id :: id in s.calls && s.calls[id].Writing? && !s.calls[id].write.Ended? ==>
          s.row.Some? && s.row.value.lastSeenAt <= s.calls[id].since)
  }

  lemma PlainStart(s: Sys, id: Id, end: WriteEnd)
    requires Inv(s) && Plain(s) && id in s.calls && (s.calls[id].StartEntered? || s.calls[id].Starting?)
    ensures Plain(AdvanceCall(s, id, end))
  {
  }

  lemma PlainCapture(s: Sys, id: Id, end: WriteEnd)
    requires Inv(s) && Plain(s) && id in s.calls && (s.calls[id].FlushWaiting? || s.calls[id].StopWaiting?)
    ensures Plain(AdvanceCall(s, id, end))
  {
  }

  lemma PlainWrite(s: Sys, id: Id, end: WriteEnd)
    requires Inv(s) && Plain(s) && id in s.calls && s.calls[id].Writing?
    ensures Plain(AdvanceCall(s, id, end))
  {
    assert forall other :: other in s.calls && Holding(s.calls[other]) ==> other == id;
  }

  lemma PlainStep(s: Sys, a: Action)
    requires Inv(s) && Plain(s) && !a.Cancel?
    ensures Plain(Step(s, a))
  {
    if a.Advance? && a.id in s.calls {
      match s.calls[a.id]
      case Writing(_, _, _, _, _) => PlainWrite(s, a.id, a.end);
      case StartEntered => PlainStart(s, a.id, a.end);
      case Starting(_, _) => PlainStart(s, a.id, a.end);
      case FlushWaiting => PlainCapture(s, a.id, a.end);
      case StopWaiting => PlainCapture(s, a.id, a.end);
      case _ =>
    }
  }

  lemma PlainLosesNothing(s: Sys, a: Action, n: Notice)
    requires Inv(s) && Plain(s) && !a.Cancel? && n in s.accepted && !Lost(s, n)
    ensures !Loses(s, a, n)
  {
    if a.Advance? && a.id in s.calls && s.calls[a.id].Writing? && s.calls[a.id].write.Committing? {
      InFlightChange(s, AdvanceCall(s, a.id, a.end), a.id, n);
      assert TimelyWrite(s.calls[a.id], s.clock);
    }
  }

  predicate NothingLost(s: Sys) { forall n :: n in s.accepted ==> !Lost(s, n) }

  lemma NoteIsPending(s: Sys, a: Action, n: Notice)
    requires n in Step(s, a).accepted && n !in s.accepted
    ensures !Lost(Step(s, a), n)
  {
  }

  lemma {:induction false} PlainRun(s: Sys, actions: seq<Action>)
    requires Inv(s) && Plain(s) && NothingLost(s) && Uncancelled(actions)
    ensures Inv(Run(s, actions)) && Plain(Run(s, actions)) && NothingLost(Run(s, actions))
    decreases |actions|
  {
    if actions != [] {
      var t := Step(s, actions[0]);
      InvStep(s, actions[0]);
      PlainStep(s, actions[0]);
      forall n | n in t.accepted
        ensures !Lost(t, n)
      {
        if n in s.accepted {
          LossStep(s, actions[0], n);
          PlainLosesNothing(s, actions[0], n);
        } else {
          NoteIsPending(s, actions[0], n);
        }
      }
      PlainRun(t, actions[1..]);
    }
  }

  /**
   * Without a cancellation no accepted note is ever lost, whatever fails or goes
   * unacknowledged: it is pending, in flight, or stored at its time or later.
   */
  lemma NoLostProgress(s: Sys, actions: seq<Action>)
    requires Initial(s) && Uncancelled(actions)
    ensures NothingLost(Run(s, actions))
  {
    InvInitial(s);
    PlainRun(s, actions);
  }

  /** In any run a lost note was lost by one of the losing steps. */
  lemma {:induction false} LostByAStep(s: Sys, actions: seq<Action>, n: Notice)
    requires Inv(s) && (n in s.accepted ==> !Lost(s, n))
    requires n in Run(s, actions).accepted && Lost(Run(s, actions), n)
    ensures exists k :: 0 <= k < |actions| && Loses(Run(s, actions[..k]), actions[k], n)
    decreases |actions|
  {
    if actions != [] {
      var a, t := actions[0], Step(s, actions[0]);
      InvStep(s, a);
      assert Run(s, actions[..0]) == s;
      if n in s.accepted {
        LossStep(s, a, n);
      } else if n in t.accepted {
        NoteIsPending(s, a, n);
      }
      if !Loses(s, a, n) || n !in s.accepted {
        LostByAStep(t, actions[1..], n);
        var k :| 0 <= k < |actions| - 1 && Loses(Run(t, actions[1..][..k]), actions[1..][k], n);
        assert actions[..k+1][0] == a && actions[..k+1][1..] == actions[1..][..k];
        assert Loses(Run(s, actions[..k+1]), actions[k+1], n);
      }
    }
  }

  lemma LostNotesWereDropped(s: Sys, actions: seq<Action>, n: Notice)
    requires Initial(s) && n in Run(s, actions).accepted && Lost(Run(s, actions), n)
    ensures exists k :: 0 <= k < |actions| && Loses(Run(s, actions[..k]), actions[k], n)
  {
    InvInitial(s);
    LostByAStep(s, actions, n);
  }

  // ----- Stopping -----

  /** In every run: at most one stop returns True, and then the row is stopped and nothing is pending or awaited. */
  lemma StopsOnce(s: Sys, actions: seq<Action>, id: Id)
    requires Initial(s)
    requires var t := Run(s, actions); id in t.calls && t.calls[id] == StopReturned(true)
    ensures var t := Run(s, actions);
            && RowStopped(t) && t.recorder.pending == {}
            && (forall other :: other in t.calls ==> !Holding(t.calls[other]))
            && (forall other :: other in t.calls && t.calls[other] == StopReturned(true) ==> other == id)
  {
    InvInitial(s);
    InvRun(s, actions);
  }

  /** Without a cancellation a stop that returned True has every accepted note stored. */
  lemma StopStoresEverything(s: Sys, actions: seq<Action>, id: Id)
    requires Initial(s) && Uncancelled(actions)
    requires var t := Run(s, actions); id in t.calls && t.calls[id] == StopReturned(true)
    ensures var t := Run(s, actions); forall n :: n in t.accepted ==> Stored(t, n)
  {
    InvInitial(s);
    PlainRun(s, actions);
    StopsOnce(s, actions, id);
    var t := Run(s, actions);
    forall n | n in t.accepted
      ensures Stored(t, n)
    {
      assert !Lost(t, n);
    }
  }

  // ----- The row -----

  /** Every reachable row satisfies the CHECK constraints and is no newer than the clock. */
  lemma RowAlwaysValid(s: Sys, actions: seq<Action>)
    requires Initial(s)
    ensures var t := Run(s, actions); t.row.Some? ==> RowValid(t.row.value) && t.row.value.lastSeenAt <= t.clock
  {
    InvInitial(s);
    InvRun(s, actions);
  }

  /** How a row may evolve. */
  predicate RowGrows(a: Option<Row>, b: Option<Row>) {
    a.Some? ==>
      && b.Some?
      && (a.value.stoppedAt.Some? ==> b == a)
      && a.value.startedAt == b.value.startedAt
      && a.value.lastSeenAt <= b.value.lastSeenAt
      && forall e :: e in a.value.stamps ==> e in b.value.stamps && a.value.stamps[e] <= b.value.stamps[e]
  }

  /** A commit of event times read before the row was last seen. */
  predicate Backdates(s: Sys, a: Action) {
    && a.Advance? && a.id in s.calls && Commits(s, s.calls[a.id], a.end)
    && (s.calls[a.id].captured != {} || !s.calls[a.id].stop)
    && s.calls[a.id].write.now < s.row.value.lastSeenAt
  }

  /** A step moves the row forward, or leaves it alone, unless it backdates. */
  lemma RowStepIff(s: Sys, a: Action)
    requires Inv(s)
    ensures RowGrows(s.row, Step(s, a).row) <==> !Backdates(s, a)
  {
  }

  /** Without backdating the CHECK constraints never refuse a write: an active row and a transaction are enough. */
  lemma NeverRefused(s: Sys, id: Id, end: WriteEnd)
    requires Inv(s) && Plain(s) && id in s.calls && s.calls[id].Writing? && s.calls[id].write.Committing?
    ensures Commits(s, s.calls[id], end) <==> end != NotCommitted && s.row.Some? && s.row.value.stoppedAt == None
  {
    assert TimelyWrite(s.calls[id], s.clock);
  }

  lemma GrowsTransitive(a: Option<Row>, b: Option<Row>, c: Option<Row>)
    requires RowGrows(a, b) && RowGrows(b, c)
    ensures RowGrows(a, c)
  {
  }

  lemma {:induction false} RowOnlyGrows(s: Sys, actions: seq<Action>)
    requires Inv(s) && Plain(s) && NothingLost(s) && Uncancelled(actions)
    ensures RowGrows(s.row, Run(s, actions).row)
    decreases |actions|
  {
    if actions != [] {
      var a, t := actions[0], Step(s, actions[0]);
      PlainRun(s, [a]);
      assert Run(s, [a]) == Run(t, [a][1..]) == t;
      PlainNeverBackdates(s, a);
      RowStepIff(s, a);
      RowOnlyGrows(t, actions[1..]);
      GrowsTransitive(s.row, t.row, Run(s, actions).row);
    }
  }

  lemma PlainNeverBackdates(s: Sys, a: Action)
    requires Inv(s) && Plain(s)
    ensures !Backdates(s, a)
  {
    if a.Advance? && a.id in s.calls && s.calls[a.id].Writing? {
      assert TimelyWrite(s.calls[a.id], s.clock);
    }
  }

  /** Without a cancellation rows only move forward between any two points of a run, and a stopped row never changes. */
  lemma RowNeverRegresses(s: Sys, first: seq<Action>, later: seq<Action>)
    requires Initial(s) && Uncancelled(first + later)
    ensures RowGrows(Run(s, first).row, Run(s, first + later).row)
  {
    assert Uncancelled(first) && Uncancelled(later) by {
      assert forall k :: 0 <= k < |first| ==> first[k] == (first + later)[k];
      assert forall k :: 0 <= k < |later| ==> later[k] == (first + later)[|first| + k];
    }
    InvInitial(s);
    PlainRun(s, first);
    RunAppend(s, first, later);
    RowOnlyGrows(Run(s, first), later);
  }

  /** In every run, cancelled or not, a stopped row never changes. */
  lemma {:induction false} StoppedForever(s: Sys, actions: seq<Action>)
    requires RowStopped(s)
    ensures Run(s, actions).row == s.row
    decreases |actions|
  {
    if actions != [] {
      StoppedForever(Step(s, actions[0]), actions[1..]);
    }
  }

  lemma {:induction false} RunAppend(s: Sys, a: seq<Action>, b: seq<Action>)
    ensures Run(s, a + b) == Run(Run(s, a), b)
    decreases |a|
  {
    if a == [] {
      assert a + b == b;
    } else {
      assert (a + b)[0] == a[0] && (a + b)[1..] == a[1..] + b;
      RunAppend(Step(s, a[0]), a[1..], b);
    }
  }

  // ----- What a cancellation itself does -----

  /** A call that waits for a lock or for its thread. */
  predicate Awaits(c: Call) { c.FlushWaiting? || c.StopWaiting? || ((c.Starting? || c.Writing?) && c.awaited) }

  /** Cancelled, with its thread perhaps still running. */
  predicate Detached(c: Call) { c == Cancelled || ((c.Starting? || c.Writing?) && !c.awaited) }

  /** A cancellation detaches the call and frees the lock it held; a thread that has not ended runs on; nothing else changes. */
  lemma CancelDetaches(s: Sys, id: Id)
    requires Inv(s) && id in s.calls && Awaits(s.calls[id])
    ensures var c, d := s.calls[id], Step(s, Cancel(id)).calls[id];
            && Step(s, Cancel(id)) == s.(lock := if Holding(c) then None else s.lock, calls := s.calls[id := d])
            && d == if c.Starting? && !c.write.Ended? then Starting(c.write, false)
                    else if c.Writing? && !c.write.Ended? then Writing(c.stop, c.captured, c.since, c.write, false)
                    else Cancelled
  {
  }

  /** A detached call stays detached: it returns nothing, takes no lock, and registers or stops nothing. */
  lemma {:induction false} DetachedForever(s: Sys, actions: seq<Action>, id: Id)
    requires Inv(s) && id in s.calls && Detached(s.calls[id])
    ensures id in Run(s, actions).calls && Detached(Run(s, actions).calls[id])
    decreases |actions|
  {
    if actions != [] {
      InvStep(s, actions[0]);
      DetachedStep(s, actions[0], id);
      DetachedForever(Step(s, actions[0]), actions[1..], id);
    }
  }

  lemma DetachedStep(s: Sys, a: Action, id: Id)
    requires Inv(s) && id in s.calls && Detached(s.calls[id])
    ensures id in Step(s, a).calls && Detached(Step(s, a).calls[id])
  {
  }

  // ----- The recorder's flags -----

  /** The step ends a call that awaits this write. */
  predicate Ends(s: Sys, a: Action, c: Call) { a.Advance? && a.id in s.calls && s.calls[a.id] == c }

  /** Registered exactly by the end of an acknowledged start that is still awaited. */
  lemma RegisteredIff(s: Sys, a: Action)
    requires Inv(s)
    ensures Step(s, a).recorder.registered <==>
            s.recorder.registered || Ends(s, a, Starting(Ended(true), true))
  {
  }

  /** Stopping exactly once a stop has been let in, and stopped exactly by the end of an acknowledged one. */
  lemma StoppingIff(s: Sys, a: Action)
    requires Inv(s)
    ensures Step(s, a).recorder.stopping <==>
            s.recorder.stopping || (Ends(s, a, StopEntered) && s.recorder.registered && !s.recorder.stopped)
    ensures Step(s, a).recorder.stopped <==>
            || s.recorder.stopped
            || (a.Advance? && a.id in s.calls && s.calls[a.id].Writing? && s.calls[a.id].stop && s.calls[a.id].write == Ended(true))
  {
  }

  /** A note is accepted, and pending, exactly between registration and the beginning of a stop. */
  lemma AcceptedIff(s: Sys, e: Event)
    ensures var t := Step(s, Note(e));
            var open := s.recorder.registered && !s.recorder.stopping && !s.recorder.stopped;
            && t.accepted == (if open then s.accepted + {(e, s.clock)} else s.accepted)
            && t.recorder.pending == (if open then s.recorder.pending + {e} else s.recorder.pending)
  {
  }

  // ----- One flush, and what a cancellation can do -----

  function Repeat(a: Action, count: nat): seq<Action> { seq(count, i => a) }

  /** An undisturbed flush stores exactly the pending events, at the current time. */
  lemma FlushStores(s: Sys, id: Id)
    requires Inv(s) && Accepting(s.recorder) && s.recorder.pending != {} && s.lock == None
    requires s.row.value.stoppedAt == None
    requires id in s.calls && s.calls[id].FlushWaiting?
    ensures var t := Run(s, Repeat(Advance(id, Committed), 4));
            && t.calls == s.calls[id := Returned(true)] && t.clock == s.clock && t.accepted == s.accepted
            && t.recorder.pending == {} && t.lock == None
            && t.row.Some? && t.row.value.startedAt == s.row.value.startedAt && t.row.value.lastSeenAt == s.clock && t.row.value.stoppedAt == None
            && t.row.value.stamps.Keys == s.row.value.stamps.Keys + s.recorder.pending
            && (forall e :: e in t.row.value.stamps ==>
                  t.row.value.stamps[e] == if e in s.recorder.pending then s.clock else s.row.value.stamps[e])
  {
    var go := Advance(id, Committed);
    var s1 := Step(s, go);
    assert s1.calls[id] == Writing(false, s.recorder.pending, s.clock, Reading, true);
    var s2 := Step(s1, go);
    assert s2.calls[id] == Writing(false, s.recorder.pending, s.clock, Committing(s.clock), true);
    var s3 := Step(s2, go);
    assert s3.calls[id] == Writing(false, s.recorder.pending, s.clock, Ended(true), true);
    var s4 := Step(s3, go);
    UnrollRun(s, Repeat(go, 4), [s1, s2, s3, s4]);
  }

  predicate AllStamped(t: Sys, events: set<Event>, now: Time)
    requires t.row.Some?
  {
    forall e :: e in events ==> e in t.row.value.stamps && t.row.value.stamps[e] == now
  }

  /**
   * An undisturbed flush that fails, or commits without being acknowledged, returns
   * False and keeps every event pending; only the second has written the row.
   */
  lemma FailedFlushKeeps(s: Sys, id: Id, end: WriteEnd)
    requires Inv(s) && Accepting(s.recorder) && s.recorder.pending != {} && s.lock == None
    requires s.row.value.stoppedAt == None && end != Committed
    requires id in s.calls && s.calls[id].FlushWaiting?
    ensures var t := Run(s, Repeat(Advance(id, end), 4));
            && t.calls == s.calls[id := Returned(false)] && t.recorder == s.recorder && t.lock == None
            && (end == NotCommitted ==> t.row == s.row)
            && (end == CommittedUnacknowledged ==> t.row.Some? && t.row.value.lastSeenAt == s.clock && AllStamped(t, s.recorder.pending, s.clock))
  {
    var go := Advance(id, end);
    var s1 := Step(s, go);
    assert s1.calls[id] == Writing(false, s.recorder.pending, s.clock, Reading, true);
    var s2 := Step(s1, go);
    assert s2.calls[id] == Writing(false, s.recorder.pending, s.clock, Committing(s.clock), true);
    var s3 := Step(s2, go);
    assert s3.calls[id] == Writing(false, s.recorder.pending, s.clock, Ended(false), true);
    var s4 := Step(s3, go);
    UnrollRun(s, Repeat(go, 4), [s1, s2, s3, s4]);
  }

  lemma StopTakes(s: Sys, id: Id)
    requires s.recorder.registered && !s.recorder.stopped && s.lock == None
    requires id in s.calls && s.calls[id].StopEntered?
    ensures Step(Step(s, Advance(id, Committed)), Advance(id, Committed)) ==
            s.(recorder := Recorder({}, true, true, false), lock := Some(id),
               calls := s.calls[id := Writing(true, s.recorder.pending, s.clock, Reading, true)])
  {
    var t := Step(s, Advance(id, Committed));
    assert t.calls[id] == StopWaiting && t.recorder == s.recorder.(stopping := true);
  }

  lemma StopEnds(t: Sys, id: Id, captured: set<Event>, since: Time)
    requires id in t.calls && t.calls[id] == Writing(true, captured, since, Reading, true)
    requires t.row.Some? && t.row.value.stoppedAt == None && RowValid(t.row.value) && t.row.value.lastSeenAt <= t.clock
    ensures var go := Advance(id, Committed);
            Step(Step(Step(t, go), go), go) ==
            t.(row := StoppedRow(t.row, captured, t.clock), recorder := t.recorder.(stopped := true), lock := None,
               calls := t.calls[id := StopReturned(true)])
  {
    var u := Step(t, Advance(id, Committed));
    assert u.calls[id] == Writing(true, captured, since, Committing(t.clock), true);
    var v := Step(u, Advance(id, Committed));
    assert v.calls[id] == Writing(true, captured, since, Ended(true), true);
  }

  /**
   * An undisturbed stop returns True: the recorder is stopped for good, what was pending
   * is stored, and the row is stopped; without pending events only the stop is stamped.
   */
  lemma StopStores(s: Sys, id: Id)
    requires Inv(s) && s.recorder.registered && !s.recorder.stopped && s.lock == None
    requires s.row.Some? && s.row.value.stoppedAt == None
    requires id in s.calls && s.calls[id].StopEntered?
    ensures var t := Run(s, Repeat(Advance(id, Committed), 5));
            && t.calls == s.calls[id := StopReturned(true)] && t.recorder == Recorder({}, true, true, true)
            && t.row.Some? && t.row.value.stoppedAt == Some(s.clock) && t.row.value.startedAt == s.row.value.startedAt
            && t.row.value.lastSeenAt == (if s.recorder.pending == {} then s.row.value.lastSeenAt else s.clock)
            && t.row.value.stamps.Keys == s.row.value.stamps.Keys + s.recorder.pending
            && (forall e :: e in t.row.value.stamps ==>
                  t.row.value.stamps[e] == if e in s.recorder.pending then s.clock else s.row.value.stamps[e])
  {
    var go := Advance(id, Committed);
    StopTakes(s, id);
    var s1 := Step(s, go);
    var s2 := Step(s1, go);
    StopEnds(s2, id, s.recorder.pending, s.clock);
    var s3 := Step(s2, go);
    var s4 := Step(s3, go);
    var s5 := Step(s4, go);
    UnrollRun(s, Repeat(go, 5), [s1, s2, s3, s4, s5]);
  }

  lemma {:induction false} UnrollRun(s: Sys, actions: seq<Action>, states: seq<Sys>)
    requires |states| == |actions| > 0
    requires states[0] == Step(s, actions[0])
    requires forall k :: 0 < k < |actions| ==> states[k] == Step(states[k-1], actions[k])
    ensures Run(s, actions) == states[|states|-1]
    decreases |actions|
  {
    if |actions| == 1 {
      assert Run(states[0], actions[1..]) == states[0];
    } else {
      assert forall k :: 0 < k < |actions| - 1 ==>
          states[1..][k] == states[k+1] && states[1..][k-1] == states[k] && actions[1..][k] == actions[k+1];
      UnrollRun(states[0], actions[1..], states[1..]);
    }
  }

  /** A registered, idle recorder with some flushes about to begin. */
  predicate Idle(s: Sys, flushes: set<Id>) {
    && Inv(s) && Accepting(s.recorder) && s.recorder.pending == {} && s.lock == None
    && s.row.value.stoppedAt == None && s.row.value.stamps == map[] && s.row.value.lastSeenAt == s.row.value.startedAt
    && s.accepted == {}
    && (forall id :: id in flushes ==> id in s.calls && s.calls[id].FlushWaiting?)
    && (forall id :: id in s.calls ==> !s.calls[id].Writing?)
  }

  lemma StartRegisters(s: Sys, id: Id)
    requires s.row == None && s.recorder == NEW && id in s.calls && s.calls[id].StartEntered?
    ensures Run(s, Repeat(Advance(id, Committed), 4)) ==
            s.(row := Some(Row(s.clock, s.clock, map[], None)), recorder := NEW.(registered := true), calls := s.calls[id := Returned(true)])
  {
    var go := Advance(id, Committed);
    var s1 := Step(s, go);
    assert s1.calls[id] == Starting(Reading, true);
    var s2 := Step(s1, go);
    assert s2.calls[id] == Starting(Committing(s.clock), true);
    var s3 := Step(s2, go);
    assert s3.calls[id] == Starting(Ended(true), true);
    var s4 := Step(s3, go);
    assert s4.calls == s.calls[id := Returned(true)];
    UnrollRun(s, Repeat(go, 4), [s1, s2, s3, s4]);
  }

  /** Starting once leads there. */
  lemma IdleIsReachable()
    ensures exists s: Sys, actions: seq<Action> :: Initial(s) && Idle(Run(s, actions), {1, 2})
  {
    var s := Sys(NEW, None, 0, None, map[0 := StartEntered, 1 := FlushWaiting, 2 := FlushWaiting], {});
    StartIsIdle(s, 0, {1, 2});
  }

  lemma StartIsIdle(s: Sys, id: Id, flushes: set<Id>)
    requires Initial(s) && id in s.calls && s.calls[id].StartEntered? && id !in flushes
    requires forall f :: f in flushes ==> f in s.calls && s.calls[f].FlushWaiting?
    ensures Idle(Run(s, Repeat(Advance(id, Committed), 4)), flushes)
  {
    StartRegisters(s, id);
    InvInitial(s);
    InvRun(s, Repeat(Advance(id, Committed), 4));
  }

  /** A note, then a flush that has captured it and read the clock, then the flush's cancellation. */
  function Abandon(e: Event, id: Id): seq<Action> {
    [Note(e), Advance(id, Committed), Advance(id, Committed), Cancel(id)]
  }

  /** A note that the next flush takes into its write. */
  lemma Taken(s: Sys, e: Event, id: Id)
    requires Idle(s, {id})
    ensures Step(Step(s, Note(e)), Advance(id, Committed)) ==
            s.(calls := s.calls[id := Writing(false, {e}, s.clock, Reading, true)], accepted := {(e, s.clock)}, lock := Some(id))
  {
    var t := Step(s, Note(e));
    assert t.recorder.pending == {e} && t.accepted == {(e, s.clock)};
  }

  /** A write that has read the clock when its call is cancelled. */
  lemma LeftBehind(t: Sys, e: Event, id: Id, since: Time)
    requires id in t.calls && t.calls[id] == Writing(false, {e}, since, Reading, true)
    ensures Step(Step(t, Advance(id, Committed)), Cancel(id)) ==
            t.(calls := t.calls[id := Writing(false, {e}, since, Committing(t.clock), false)], lock := None)
  {
    var u := Step(t, Advance(id, Committed));
    assert u.calls[id] == Writing(false, {e}, since, Committing(t.clock), true);
  }

  lemma Abandoned(s: Sys, e: Event, id: Id)
    requires Idle(s, {id})
    ensures Run(s, Abandon(e, id)) ==
            s.(calls := s.calls[id := Writing(false, {e}, s.clock, Committing(s.clock), false)], accepted := {(e, s.clock)})
  {
    Taken(s, e, id);
    var s1 := Step(s, Note(e));
    var s2 := Step(s1, Advance(id, Committed));
    LeftBehind(s2, e, id, s.clock);
    var s3 := Step(s2, Advance(id, Committed));
    var s4 := Step(s3, Cancel(id));
    UnrollRun(s, Abandon(e, id), [s1, s2, s3, s4]);
  }

  /**
   * Cancellation is the exception, and it is real: when the thread of a cancelled flush
   * fails, the note it captured is lost.
   */
  lemma CancelLoses(s: Sys, e: Event, id: Id)
    requires Idle(s, {id})
    ensures var t := Run(s, Abandon(e, id) + [Advance(id, NotCommitted)]); (e, s.clock) in t.accepted && Lost(t, (e, s.clock))
  {
    Abandoned(s, e, id);
    var t := Run(s, Abandon(e, id));
    RunAppend(s, Abandon(e, id), [Advance(id, NotCommitted)]);
    var u := Step(t, Advance(id, NotCommitted));
    assert Run(t, [Advance(id, NotCommitted)]) == Run(u, [Advance(id, NotCommitted)][1..]) == u;
  }

  lemma RunTwo(s: Sys, a: Action, b: Action)
    ensures Run(s, [a, b]) == Step(Step(s, a), b)
  {
    assert [a, b][1..] == [b] && [b][1..] == [];
    assert Run(Step(s, a), [b]) == Run(Step(Step(s, a), b), []);
  }

  /** The clock moves on, and the event happens again. */
  function NotedAfter(t: Sys, e: Event, elapsed: nat): Sys {
    t.(clock := t.clock + elapsed, recorder := t.recorder.(pending := t.recorder.pending + {e}),
       accepted := t.accepted + {(e, t.clock + elapsed)})
  }

  lemma TickThenNote(t: Sys, e: Event, elapsed: nat)
    requires Accepting(t.recorder)
    ensures Step(Step(t, Tick(elapsed)), Note(e)) == NotedAfter(t, e, elapsed)
  {
  }

  lemma NotedLater(t: Sys, e: Event, elapsed: nat)
    requires Accepting(t.recorder)
    ensures Run(t, [Tick(elapsed), Note(e)]) == NotedAfter(t, e, elapsed)
  {
    RunTwo(t, Tick(elapsed), Note(e));
    TickThenNote(t, e, elapsed);
  }

  ghost predicate Reaches(s: Sys, t: Sys) { exists actions: seq<Action> :: Run(s, actions) == t }

  lemma ReachesRun(s: Sys, actions: seq<Action>)
    requires Inv(s)
    ensures Reaches(s, Run(s, actions)) && Inv(Run(s, actions))
  {
    InvRun(s, actions);
  }

  lemma ReachesOn(s: Sys, t: Sys, u: Sys)
    requires Reaches(s, t) && Reaches(t, u)
    ensures Reaches(s, u)
  {
    var first: seq<Action> :| Run(s, first) == t;
    var later: seq<Action> :| Run(t, later) == u;
    RunAppend(s, first, later);
  }

  /** The abandoned write is still running when the event has happened again. */
  function Abandoning(s: Sys, e: Event, id: Id, elapsed: nat): Sys {
    s.(calls := s.calls[id := Writing(false, {e}, s.clock, Committing(s.clock), false)],
       clock := s.clock + elapsed, recorder := s.recorder.(pending := {e}),
       accepted := {(e, s.clock), (e, s.clock + elapsed)})
  }

  lemma ReachesAbandoning(s: Sys, e: Event, id: Id, elapsed: nat)
    requires Idle(s, {id})
    ensures Reaches(s, Abandoning(s, e, id, elapsed)) && Inv(Abandoning(s, e, id, elapsed))
  {
    Abandoned(s, e, id);
    var t := Run(s, Abandon(e, id));
    ReachesRun(s, Abandon(e, id));
    var later := [Tick(elapsed), Note(e)];
    NotedLater(t, e, elapsed);
    ReachesRun(t, later);
    assert Run(t, later) == Abandoning(s, e, id, elapsed);
    ReachesOn(s, t, Abandoning(s, e, id, elapsed));
  }

  /** The event's later note is stored, and a write that captured its earlier note is still to come. */
  predicate Overtaken(t: Sys, e: Event, id: Id, readAt: Time, noted: Time) {
    && Inv(t) && (e, noted) in t.accepted && e !in t.recorder.pending && readAt < noted
    && id in t.calls && t.calls[id] == Writing(false, {e}, readAt, Committing(readAt), false)
    && (forall other :: other in t.calls && other != id ==> !t.calls[other].Writing?)
    && t.row.Some? && t.row.value.stoppedAt == None && t.row.value.startedAt <= readAt
    && t.row.value.lastSeenAt == noted && t.row.value.stamps == map[e := noted]
  }

  lemma FlushOvertakes(s: Sys, e: Event, id: Id, other: Id, elapsed: nat) returns (t: Sys)
    requires Idle(s, {id, other}) && id != other && elapsed > 0
    requires Inv(Abandoning(s, e, id, elapsed))
    ensures Reaches(Abandoning(s, e, id, elapsed), t) && Overtaken(t, e, id, s.clock, s.clock + elapsed)
  {
    var m := Abandoning(s, e, id, elapsed);
    FlushStores(m, other);
    ReachesRun(m, Repeat(Advance(other, Committed), 4));
    t := Run(m, Repeat(Advance(other, Committed), 4));
    assert t.row.value.stamps.Keys == {e};
  }

  /** When it commits, the row goes back in time and the later note, which was stored, is lost. */
  lemma OvertakenBackdates(t: Sys, e: Event, id: Id, readAt: Time, noted: Time)
    requires Overtaken(t, e, id, readAt, noted)
    ensures var late := Step(t, Advance(id, Committed));
            && Stored(t, (e, noted)) && Lost(late, (e, noted))
            && Backdates(t, Advance(id, Committed)) && late.row.value.lastSeenAt == readAt < t.row.value.lastSeenAt
  {
    var n := (e, noted);
    assert Target(t.row, t.calls[id], readAt).value.stamps == map[e := readAt];
    InFlightChange(t, Step(t, Advance(id, Committed)), id, n);
    assert !CarriedByOther(t, id, n);
  }

  /** And that does happen, from every idle recorder with two flushes to come. */
  lemma CancelBackdates(s: Sys, e: Event, id: Id, other: Id, elapsed: nat)
    requires Idle(s, {id, other}) && id != other && elapsed > 0
    ensures exists t :: Reaches(s, t) && Overtaken(t, e, id, s.clock, s.clock + elapsed)
  {
    assert Idle(s, {id});
    ReachesAbandoning(s, e, id, elapsed);
    var t := FlushOvertakes(s, e, id, other, elapsed);
    ReachesOn(s, Abandoning(s, e, id, elapsed), t);
  }
}
