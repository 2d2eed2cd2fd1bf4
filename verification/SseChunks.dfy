/**
 * The streaming consumer, and what chunking can and cannot change.
 *
 * The consumer sees chunks.  It checks the wire limit before a chunk's lines, and
 * after them that the event so far plus the undecided remainder still fits.
 */
module SseChunks {
  import opened Prelude
  import opened SseLines
  import opened SseFraming

  datatype Machine<+A> = Machine(buffer: bytes, wireBytes: nat, progress: Progress<A>)

  function Initial<A(!new)>(p: Protocol<A>): Machine<A> { Machine([], 0, Running(Start(p))) }

  /** One chunk of a stream that is still running. */
  function Feed<A(!new)>(p: Protocol<A>, m: Machine<A>, chunk: bytes): Machine<A>
    requires m.progress.Running?
  {
    var wire := m.wireBytes + |chunk|;
    if wire > MAX_STREAM_WIRE_BYTES then
      Machine(m.buffer, wire, Failed(TooLarge(MAX_STREAM_WIRE_BYTES)))
    else
      var split := SplitOpen(m.buffer + chunk);
      var progress := ProcessLines(p, m.progress.frame, split.lines);
      if progress.Running? && progress.frame.eventBytes + |split.rest| > MAX_STREAM_EVENT_BYTES then
        Machine(split.rest, wire, Failed(TooLarge(MAX_STREAM_EVENT_BYTES)))
      else
        Machine(split.rest, wire, progress)
  }

  function FeedAll<A(!new)>(p: Protocol<A>, m: Machine<A>, chunks: seq<bytes>): Machine<A>
    decreases |chunks|
  {
    if chunks == [] || !m.progress.Running? then m
    else FeedAll(p, Feed(p, m, chunks[0]), chunks[1..])
  }

  function EndOfStream<A(!new)>(p: Protocol<A>, m: Machine<A>): Progress<A> {
    match m.progress
    case Running(f) => AtEof(p, ProcessLines(p, f, SplitAll(m.buffer)))
    case stopped => stopped
  }

  /** The outcome of a response body arriving as these chunks. */
  function Consume<A(!new)>(p: Protocol<A>, declaredLength: Option<int>, chunks: seq<bytes>): Progress<A> {
    if declaredLength.Some? && declaredLength.value > MAX_STREAM_WIRE_BYTES
    then Failed(TooLarge(MAX_STREAM_WIRE_BYTES))
    else EndOfStream(p, FeedAll(p, Initial(p), chunks))
  }

  /** A declared length past the limit is refused unread; any other declaration changes nothing. */
  lemma DeclaredLength<A(!new)>(p: Protocol<A>, declared: int, chunks: seq<bytes>)
    ensures declared <= MAX_STREAM_WIRE_BYTES ==> Consume(p, Some(declared), chunks) == Consume(p, None, chunks)
    ensures declared > MAX_STREAM_WIRE_BYTES ==> Consume(p, Some(declared), chunks) == Failed(TooLarge(MAX_STREAM_WIRE_BYTES))
  {
  }

  // ----- What a prefix of the stream determines -----

  /** The machine after a prefix, had no check of the remainder intervened. */
  function After<A(!new)>(p: Protocol<A>, prefix: bytes): Machine<A> {
    var split := SplitOpen(prefix);
    Machine(split.rest, |prefix|, ProcessLines(p, Start(p), split.lines))
  }

  /** The check of the undecided remainder fails here. */
  predicate Overfull<A(!new)>(p: Protocol<A>, prefix: bytes) {
    var m := After(p, prefix);
    m.progress.Running? && m.progress.frame.eventBytes + |m.buffer| > MAX_STREAM_EVENT_BYTES
  }

  /** An event that measures exactly the limit, and only the CR of its blank line seen. */
  predicate HeldAtLimit<A(!new)>(p: Protocol<A>, prefix: bytes) {
    var m := After(p, prefix);
    && m.progress.Running?
    && m.progress.frame.eventBytes == MAX_STREAM_EVENT_BYTES
    && m.buffer == [CR]
  }

  /** Some chunk boundary, the last included, falls on such a CR. */
  predicate CutAtHeldCr<A(!new)>(p: Protocol<A>, chunks: seq<bytes>) {
    exists k :: 0 < k <= |chunks| && HeldAtLimit(p, Concat(chunks[..k]))
  }

  lemma AfterSane<A(!new)>(p: Protocol<A>, prefix: bytes)
    requires p.Valid()
    ensures After(p, prefix).progress.Running? ==> SaneFrame(p, After(p, prefix).progress.frame)
  {
    ProcessLinesSane(p, Start(p), SplitOpen(prefix).lines);
  }

  /** Feeding a chunk moves the machine from one prefix to the next. */
  lemma FeedMoves<A(!new)>(p: Protocol<A>, prefix: bytes, chunk: bytes)
    requires After(p, prefix).progress.Running?
    requires |prefix + chunk| <= MAX_STREAM_WIRE_BYTES
    ensures Feed(p, After(p, prefix), chunk) ==
            if Overfull(p, prefix + chunk)
            then After(p, prefix + chunk).(progress := Failed(TooLarge(MAX_STREAM_EVENT_BYTES)))
            else After(p, prefix + chunk)
  {
    SplitOpenAppend(prefix, chunk);
    var first := SplitOpen(prefix);
    ProcessLinesAppend(p, Start(p), first.lines, SplitOpen(first.rest + chunk).lines);
  }

  /** Once a prefix has settled the outcome, the rest of the stream is not looked at. */
  lemma StoppedIsFinal<A(!new)>(p: Protocol<A>, prefix: bytes, tail: bytes)
    requires !After(p, prefix).progress.Running?
    ensures Reference(p, prefix + tail) == After(p, prefix).progress
    ensures After(p, prefix + tail).progress == After(p, prefix).progress
  {
    SplitAllAppend(prefix, tail);
    SplitOpenAppend(prefix, tail);
    var first := SplitOpen(prefix);
    ProcessLinesAppend(p, Start(p), first.lines, SplitAll(first.rest + tail));
    ProcessLinesAppend(p, Start(p), first.lines, SplitOpen(first.rest + tail).lines);
  }

  /** While running, the whole stream is the prefix's lines and then the remainder's. */
  lemma ReferenceFrom<A(!new)>(p: Protocol<A>, prefix: bytes, tail: bytes)
    requires After(p, prefix).progress.Running?
    ensures Reference(p, prefix + tail) ==
            AtEof(p, ProcessLines(p, After(p, prefix).progress.frame, SplitAll(After(p, prefix).buffer + tail)))
  {
    SplitAllAppend(prefix, tail);
    var first := SplitOpen(prefix);
    ProcessLinesAppend(p, Start(p), first.lines, SplitAll(first.rest + tail));
  }

  /** The first line of the undecided remainder is at least as long as what is known of it. */
  lemma FirstLineCoversRest(rest: bytes, tail: bytes)
    requires Pop(rest, false).Pending? && rest != []
    ensures var lines := SplitAll(rest + tail);
            && lines != []
            && (if rest[|rest|-1] == CR then lines[0] == rest[..|rest|-1] else |lines[0]| >= |rest|)
  {
    var i := FirstBreak(rest);
    var whole := rest + tail;
    if i < |rest| {
      assert whole[..i] == rest[..i] && whole[i] == rest[i];
      FirstBreakUnique(whole, i);
    } else {
      assert rest[..i] == rest;
      var j := FirstBreak(tail);
      assert whole[..|rest| + j] == rest + tail[..j];
      FirstBreakUnique(whole, |rest| + j);
    }
  }

  /**
   * An overfull remainder is a sure sign of a too-large event, with one exception:
   * the held-back CR of the blank line that ends an event of exactly the limit.
   */
  lemma OverfullMeansTooLarge<A(!new)>(p: Protocol<A>, prefix: bytes, tail: bytes)
    requires p.Valid() && Overfull(p, prefix) && !HeldAtLimit(p, prefix)
    ensures Reference(p, prefix + tail) == Failed(TooLarge(MAX_STREAM_EVENT_BYTES))
  {
    AfterSane(p, prefix);
    ReferenceFrom(p, prefix, tail);
    var m := After(p, prefix);
    FirstLineCoversRest(m.buffer, tail);
    var line := SplitAll(m.buffer + tail)[0];
    var f := m.progress.frame;
    if m.buffer[|m.buffer|-1] == CR {
      assert line == [] ==> m.buffer == [CR];
    }
    assert line != [] && !(f.firstLine && line == BOM);
    assert ProcessLine(p, f, line) == Failed(TooLarge(MAX_STREAM_EVENT_BYTES));
  }

  lemma HeldIsOverfull<A(!new)>(p: Protocol<A>, prefix: bytes)
    requires HeldAtLimit(p, prefix)
    ensures Overfull(p, prefix)
  {
  }

  /** The induction behind ChunkingTheorem: from any prefix, over the remaining chunks. */
  lemma {:induction false} ConsumeFrom<A(!new)>(p: Protocol<A>, prefix: bytes, chunks: seq<bytes>)
    requires p.Valid() && After(p, prefix).progress.Running?
    requires |prefix + Concat(chunks)| <= MAX_STREAM_WIRE_BYTES
    ensures EndOfStream(p, FeedAll(p, After(p, prefix), chunks)) ==
            if exists k :: 0 < k <= |chunks| && HeldAtLimit(p, prefix + Concat(chunks[..k]))
            then Failed(TooLarge(MAX_STREAM_EVENT_BYTES))
            else Reference(p, prefix + Concat(chunks))
    decreases |chunks|
  {
    if chunks == [] {
      ReferenceFrom(p, prefix, []);
      assert prefix + [] == prefix && After(p, prefix).buffer + [] == After(p, prefix).buffer;
    } else {
      var next := prefix + chunks[0];
      var rest := chunks[1..];
      assert prefix + Concat(chunks) == next + Concat(rest);
      FeedMoves(p, prefix, chunks[0]);
      HeldShift(p, prefix, chunks);
      if !After(p, next).progress.Running? {
        StoppedIsFinal(p, next, Concat(rest));
        forall k | 0 < k <= |rest| ensures !HeldAtLimit(p, next + Concat(rest[..k])) {
          StoppedIsFinal(p, next, Concat(rest[..k]));
        }
      } else if Overfull(p, next) {
        if !HeldAtLimit(p, next) {
          OverfullMeansTooLarge(p, next, Concat(rest));
        }
      } else {
        ConsumeFrom(p, next, rest);
        if HeldAtLimit(p, next) {
          HeldIsOverfull(p, next);
        }
      }
    }
  }

  /** Boundaries of a chunk list are the first one and those of the rest. */
  lemma HeldShift<A(!new)>(p: Protocol<A>, prefix: bytes, chunks: seq<bytes>)
    requires chunks != []
    ensures (exists k :: 0 < k <= |chunks| && HeldAtLimit(p, prefix + Concat(chunks[..k]))) <==>
            (|| HeldAtLimit(p, prefix + chunks[0])
             || exists k :: 0 < k <= |chunks[1..]| && HeldAtLimit(p, prefix + chunks[0] + Concat(chunks[1..][..k])))
  {
    forall k | 0 < k <= |chunks|
      ensures prefix + Concat(chunks[..k]) == prefix + chunks[0] + Concat(chunks[1..][..k-1])
    {
      assert chunks[..k][0] == chunks[0] && chunks[..k][1..] == chunks[1..][..k-1];
    }
    assert Concat(chunks[1..][..0]) == [];
    assert prefix + chunks[0] + [] == prefix + chunks[0];
    if k :| 0 < k <= |chunks[1..]| && HeldAtLimit(p, prefix + chunks[0] + Concat(chunks[1..][..k])) {
      assert HeldAtLimit(p, prefix + Concat(chunks[..k+1]));
    }
    if HeldAtLimit(p, prefix + chunks[0]) {
      assert HeldAtLimit(p, prefix + Concat(chunks[..1]));
    }
  }

  /**
   * Chunk invariance, exactly.  Within the wire limit, the outcome is that of the
   * whole stream split once, unless a chunk boundary falls on the held-back CR of
   * an event measuring exactly the limit; then the stream is rejected as too large.
   */
  lemma ChunkingTheorem<A(!new)>(p: Protocol<A>, chunks: seq<bytes>)
    requires p.Valid() && |Concat(chunks)| <= MAX_STREAM_WIRE_BYTES
    ensures Consume(p, None, chunks) ==
            if CutAtHeldCr(p, chunks)
            then Failed(TooLarge(MAX_STREAM_EVENT_BYTES))
            else Reference(p, Concat(chunks))
  {
    assert After(p, []) == Initial(p);
    ConsumeFrom(p, [], chunks);
    forall b: bytes ensures [] + b == b {}
    assert forall k {:trigger chunks[..k]} :: 0 < k <= |chunks| ==> [] + Concat(chunks[..k]) == Concat(chunks[..k]);
  }

  predicate NeverHeld<A(!new)>(p: Protocol<A>, stream: bytes) {
    forall k :: 0 <= k <= |stream| ==> !HeldAtLimit(p, stream[..k])
  }

  /**
   * When does every chunking agree with splitting the stream once?  Within the wire
   * limit, exactly when no event measures the limit with its blank line starting at a
   * CR, or when the stream is too large whichever way it is cut.
   */
  lemma ChunkInvarianceIff<A(!new)>(p: Protocol<A>, stream: bytes)
    requires p.Valid() && |stream| <= MAX_STREAM_WIRE_BYTES
    ensures (forall chunks: seq<bytes> :: Concat(chunks) == stream ==> Consume(p, None, chunks) == Reference(p, stream)) <==>
            NeverHeld(p, stream) || Reference(p, stream) == Failed(TooLarge(MAX_STREAM_EVENT_BYTES))
  {
    forall chunks: seq<bytes> | Concat(chunks) == stream && NeverHeld(p, stream)
      ensures Consume(p, None, chunks) == Reference(p, stream)
    {
      ChunkingTheorem(p, chunks);
      NeverHeldNeverCut(p, chunks);
    }
    forall chunks: seq<bytes> | Concat(chunks) == stream && Reference(p, stream) == Failed(TooLarge(MAX_STREAM_EVENT_BYTES))
      ensures Consume(p, None, chunks) == Reference(p, stream)
    {
      ChunkingTheorem(p, chunks);
    }
    if !NeverHeld(p, stream) {
      var k :| 0 <= k <= |stream| && HeldAtLimit(p, stream[..k]);
      CutThere(p, stream, k);
      assert Consume(p, None, [stream[..k], stream[k..]]) == Failed(TooLarge(MAX_STREAM_EVENT_BYTES));
    }
  }

  /** Every chunking of the stream has the same outcome. */
  ghost predicate OneOutcome<A(!new)>(p: Protocol<A>, stream: bytes) {
    forall c: seq<bytes>, d: seq<bytes> :: Concat(c) == stream && Concat(d) == stream ==> Consume(p, None, c) == Consume(p, None, d)
  }

  /** A prefix that neither check stops, or that already failed as if at the wire limit. */
  predicate Passes<A(!new)>(p: Protocol<A>, prefix: bytes) {
    var progress := After(p, prefix).progress;
    (progress.Running? && !Overfull(p, prefix)) || progress == Failed(TooLarge(MAX_STREAM_WIRE_BYTES))
  }

  /** The held-back CR cannot be cut at, or always is, or makes no difference. */
  predicate CutsAlike<A(!new)>(p: Protocol<A>, stream: bytes) {
    || (forall k :: 0 <= k < |stream| ==> !HeldAtLimit(p, stream[..k]))
    || HeldAtLimit(p, stream)
    || Reference(p, stream) == Failed(TooLarge(MAX_STREAM_EVENT_BYTES))
  }

  /** Nothing settles the outcome before the wire limit does. */
  predicate WireDecides<A(!new)>(p: Protocol<A>, stream: bytes)
    requires |stream| > MAX_STREAM_WIRE_BYTES
  {
    forall k :: 0 <= k <= MAX_STREAM_WIRE_BYTES ==> Passes(p, stream[..k])
  }

  /** When is the outcome independent of chunking?  Exactly, for every stream. */
  lemma OneOutcomeIff<A(!new)>(p: Protocol<A>, stream: bytes)
    requires p.Valid()
    ensures OneOutcome(p, stream) <==> if |stream| <= MAX_STREAM_WIRE_BYTES then CutsAlike(p, stream) else WireDecides(p, stream)
  {
    if |stream| <= MAX_STREAM_WIRE_BYTES {
      WithinWireIff(p, stream);
    } else {
      PastWireIff(p, stream);
    }
  }

  lemma OneChunk(stream: bytes)
    ensures Concat([stream]) == stream && Concat([stream][..1]) == stream
  {
    ConcatSnoc([], stream);
    assert [] + [stream] == [stream] && [stream][..1] == [stream];
  }

  lemma WithinWireIff<A(!new)>(p: Protocol<A>, stream: bytes)
    requires p.Valid() && |stream| <= MAX_STREAM_WIRE_BYTES
    ensures OneOutcome(p, stream) <==> CutsAlike(p, stream)
  {
    if CutsAlike(p, stream) {
      AlikeIsOne(p, stream);
    } else {
      UnlikeIsTwo(p, stream);
    }
  }

  lemma UnlikeIsTwo<A(!new)>(p: Protocol<A>, stream: bytes)
    requires p.Valid() && |stream| <= MAX_STREAM_WIRE_BYTES && !CutsAlike(p, stream)
    ensures !OneOutcome(p, stream)
  {
    var k :| 0 <= k < |stream| && HeldAtLimit(p, stream[..k]);
    CutThere(p, stream, k);
    Uncut(p, stream);
    Differ(p, stream, TooLarge(MAX_STREAM_EVENT_BYTES), [stream[..k], stream[k..]], [stream]);
  }

  lemma Differ<A(!new)>(p: Protocol<A>, stream: bytes, failure: Failure, c: seq<bytes>, d: seq<bytes>)
    requires Concat(c) == stream && Concat(d) == stream
    requires Consume(p, None, c) == Failed(failure) && Consume(p, None, d) != Failed(failure)
    ensures !OneOutcome(p, stream)
  {
  }

  lemma AlikeIsOne<A(!new)>(p: Protocol<A>, stream: bytes)
    requires p.Valid() && |stream| <= MAX_STREAM_WIRE_BYTES && CutsAlike(p, stream)
    ensures OneOutcome(p, stream)
  {
    forall chunks: seq<bytes> | Concat(chunks) == stream
      ensures Consume(p, None, chunks) ==
              if HeldAtLimit(p, stream) then Failed(TooLarge(MAX_STREAM_EVENT_BYTES)) else Reference(p, stream)
    {
      CutAlike(p, chunks);
    }
  }

  /** In one chunk a stream is only cut at its end. */
  lemma Uncut<A(!new)>(p: Protocol<A>, stream: bytes)
    requires p.Valid() && |stream| <= MAX_STREAM_WIRE_BYTES && !HeldAtLimit(p, stream)
    ensures Concat([stream]) == stream && Consume(p, None, [stream]) == Reference(p, stream)
  {
    OneChunk(stream);
    NotCut(p, stream);
    ChunkingTheorem(p, [stream]);
  }

  lemma NotCut<A(!new)>(p: Protocol<A>, stream: bytes)
    requires !HeldAtLimit(p, stream)
    ensures !CutAtHeldCr(p, [stream])
  {
    OneChunk(stream);
    assert forall k: int {:trigger [stream][..k]} :: 0 < k <= |[stream]| ==> [stream][..k] == [stream][..1];
  }

  lemma CutAlike<A(!new)>(p: Protocol<A>, chunks: seq<bytes>)
    requires p.Valid() && |Concat(chunks)| <= MAX_STREAM_WIRE_BYTES && CutsAlike(p, Concat(chunks))
    ensures Consume(p, None, chunks) ==
            if HeldAtLimit(p, Concat(chunks)) then Failed(TooLarge(MAX_STREAM_EVENT_BYTES)) else Reference(p, Concat(chunks))
  {
    ChunkingTheorem(p, chunks);
    if HeldAtLimit(p, Concat(chunks)) {
      CutAtEnd(p, chunks);
    } else if Reference(p, Concat(chunks)) != Failed(TooLarge(MAX_STREAM_EVENT_BYTES)) {
      NeverHeldAtAll(p, Concat(chunks));
      NeverHeldNeverCut(p, chunks);
    }
  }

  lemma NeverHeldAtAll<A(!new)>(p: Protocol<A>, stream: bytes)
    requires !HeldAtLimit(p, stream) && forall k :: 0 <= k < |stream| ==> !HeldAtLimit(p, stream[..k])
    ensures NeverHeld(p, stream)
  {
    assert stream[..|stream|] == stream;
  }

  /** The last chunk of a stream that ends on a held-back CR ends there. */
  lemma CutAtEnd<A(!new)>(p: Protocol<A>, chunks: seq<bytes>)
    requires HeldAtLimit(p, Concat(chunks))
    ensures CutAtHeldCr(p, chunks)
  {
    assert chunks[..|chunks|] == chunks;
    assert After(p, []) == Initial(p);
  }

  /** The wire check comes before the lines of the chunk that breaks it. */
  lemma PastWireIff<A(!new)>(p: Protocol<A>, stream: bytes)
    requires p.Valid() && |stream| > MAX_STREAM_WIRE_BYTES
    ensures OneOutcome(p, stream) <==> WireDecides(p, stream)
  {
    if WireDecides(p, stream) {
      forall chunks: seq<bytes> | Concat(chunks) == stream
        ensures Consume(p, None, chunks) == Failed(TooLarge(MAX_STREAM_WIRE_BYTES))
      {
        assert After(p, []) == Initial(p);
        assert [] + stream == stream;
        WireFrom(p, stream, [], chunks);
      }
    } else {
      var k :| 0 <= k <= MAX_STREAM_WIRE_BYTES && !Passes(p, stream[..k]);
      assert stream[..k] + stream[k..] == stream;
      WireOvertaken(p, stream[..k], stream[k..]);
    }
  }

  lemma WireOvertaken<A(!new)>(p: Protocol<A>, prefix: bytes, tail: bytes)
    requires |prefix| <= MAX_STREAM_WIRE_BYTES < |prefix + tail| && !Passes(p, prefix)
    ensures !OneOutcome(p, prefix + tail)
  {
    TwoChunks(prefix, tail);
    OneChunk(prefix + tail);
    StopsFirst(p, prefix, tail);
    WireBreaks(p, prefix + tail);
    Differ(p, prefix + tail, TooLarge(MAX_STREAM_WIRE_BYTES), [prefix + tail], [prefix, tail]);
  }

  /** From any prefix that passes, over the remaining chunks. */
  lemma {:induction false} WireFrom<A(!new)>(p: Protocol<A>, stream: bytes, prefix: bytes, chunks: seq<bytes>)
    requires |stream| > MAX_STREAM_WIRE_BYTES && WireDecides(p, stream)
    requires prefix + Concat(chunks) == stream && |prefix| <= MAX_STREAM_WIRE_BYTES
    requires After(p, prefix).progress.Running?
    ensures EndOfStream(p, FeedAll(p, After(p, prefix), chunks)) == Failed(TooLarge(MAX_STREAM_WIRE_BYTES))
    decreases |chunks|
  {
    var next, rest := prefix + chunks[0], chunks[1..];
    assert next + Concat(rest) == stream;
    if |next| <= MAX_STREAM_WIRE_BYTES {
      assert next == stream[..|next|];
      assert Passes(p, next);
      FeedMoves(p, prefix, chunks[0]);
      if After(p, next).progress.Running? {
        WireFrom(p, stream, next, rest);
      }
    }
  }

  lemma WireBreaks<A(!new)>(p: Protocol<A>, stream: bytes)
    requires |stream| > MAX_STREAM_WIRE_BYTES
    ensures Consume(p, None, [stream]) == Failed(TooLarge(MAX_STREAM_WIRE_BYTES))
  {
    var m := Feed(p, Initial(p), stream);
    assert FeedAll(p, Initial(p), [stream]) == FeedAll(p, m, [stream][1..]) == m;
  }

  /** A prefix that does not pass decides the outcome when a chunk ends there. */
  lemma StopsFirst<A(!new)>(p: Protocol<A>, prefix: bytes, tail: bytes)
    requires |prefix| <= MAX_STREAM_WIRE_BYTES && !Passes(p, prefix)
    ensures Consume(p, None, [prefix, tail]) ==
            if Overfull(p, prefix) then Failed(TooLarge(MAX_STREAM_EVENT_BYTES)) else After(p, prefix).progress
    ensures Consume(p, None, [prefix, tail]) != Failed(TooLarge(MAX_STREAM_WIRE_BYTES))
  {
    assert After(p, []) == Initial(p);
    assert [] + prefix == prefix;
    FeedMoves(p, [], prefix);
    var m := Feed(p, Initial(p), prefix);
    assert FeedAll(p, Initial(p), [prefix, tail]) == FeedAll(p, m, [prefix, tail][1..]) == m;
  }

  lemma NeverHeldNeverCut<A(!new)>(p: Protocol<A>, chunks: seq<bytes>)
    requires NeverHeld(p, Concat(chunks))
    ensures !CutAtHeldCr(p, chunks)
  {
    var stream := Concat(chunks);
    forall k | 0 < k <= |chunks| ensures !HeldAtLimit(p, Concat(chunks[..k])) {
      var prefix := Concat(chunks[..k]);
      ConcatPrefix(chunks, k);
      assert prefix == stream[..|prefix|];
    }
  }

  lemma ConcatPrefix(chunks: seq<bytes>, k: nat)
    requires k <= |chunks|
    ensures Concat(chunks[..k]) <= Concat(chunks)
  {
    assert chunks[..k] + chunks[k..] == chunks;
    ConcatAppend(chunks[..k], chunks[k..]);
  }

  /** Two chunks meeting at the held-back CR are rejected, whatever follows it. */
  lemma CutThere<A(!new)>(p: Protocol<A>, stream: bytes, k: nat)
    requires p.Valid() && |stream| <= MAX_STREAM_WIRE_BYTES
    requires k <= |stream| && HeldAtLimit(p, stream[..k])
    ensures Concat([stream[..k], stream[k..]]) == stream
    ensures Consume(p, None, [stream[..k], stream[k..]]) == Failed(TooLarge(MAX_STREAM_EVENT_BYTES))
  {
    var cut := [stream[..k], stream[k..]];
    TwoChunks(stream[..k], stream[k..]);
    assert stream[..k] + stream[k..] == stream;
    assert HeldAtLimit(p, Concat(cut[..1]));
    ChunkingTheorem(p, cut);
  }

  lemma TwoChunks(a: bytes, b: bytes)
    ensures Concat([a, b]) == a + b && Concat([a, b][..1]) == a
  {
    ConcatSnoc([a], b);
    ConcatSnoc([], a);
    assert [] + [a] == [a] && [a] + [b] == [a, b];
    assert [] + a == a && [a, b][..1] == [a];
  }

  /** A stream past the wire limit is delivered only if it was complete within the limit. */
  lemma {:induction false} DoneWithinWire<A(!new)>(p: Protocol<A>, chunks: seq<bytes>)
    requires p.Valid() && |Concat(chunks)| > MAX_STREAM_WIRE_BYTES
    requires Consume(p, None, chunks).Done?
    ensures exists k :: 0 <= k < |chunks| && |Concat(chunks[..k])| <= MAX_STREAM_WIRE_BYTES
                        && Reference(p, Concat(chunks[..k])) == Consume(p, None, chunks)
  {
    assert After(p, []) == Initial(p);
    var k := DoneFrom(p, [], chunks);
    assert [] + Concat(chunks[..k]) == Concat(chunks[..k]);
  }

  lemma ConcatPrefixStep(prefix: bytes, chunks: seq<bytes>, k: nat)
    requires chunks != [] && k < |chunks|
    ensures prefix + Concat(chunks[..k+1]) == (prefix + chunks[0]) + Concat(chunks[1..][..k])
  {
    assert chunks[..k+1][0] == chunks[0] && chunks[..k+1][1..] == chunks[1..][..k];
  }

  lemma {:induction false} DoneFrom<A(!new)>(p: Protocol<A>, prefix: bytes, chunks: seq<bytes>) returns (k: nat)
    requires p.Valid() && After(p, prefix).progress.Running?
    requires |prefix| <= MAX_STREAM_WIRE_BYTES < |prefix + Concat(chunks)|
    requires EndOfStream(p, FeedAll(p, After(p, prefix), chunks)).Done?
    ensures k < |chunks| && |prefix + Concat(chunks[..k])| <= MAX_STREAM_WIRE_BYTES
    ensures Reference(p, prefix + Concat(chunks[..k])) == EndOfStream(p, FeedAll(p, After(p, prefix), chunks))
    decreases |chunks|
  {
    var next := prefix + chunks[0];
    var rest := chunks[1..];
    assert prefix + Concat(chunks) == next + Concat(rest);
    assert |next| <= MAX_STREAM_WIRE_BYTES;
    FeedMoves(p, prefix, chunks[0]);
    if After(p, next).progress.Running? {
      k := DoneFrom(p, next, rest);
      ConcatPrefixStep(prefix, chunks, k);
      k := k + 1;
    } else {
      k := 1;
      ConcatPrefixStep(prefix, chunks, 0);
      StoppedIsFinal(p, next, []);
      assert next + [] == next;
    }
  }
}
