/**
 * Printing and reading back: lines with any mix of endings, then whole events.
 */
module SseRoundTrip {
  import opened Prelude
  import opened SseLines
  import opened SseFraming
  import opened SseChunks

  datatype Ending = Lf | CrLf | LoneCr

  function EndingBytes(e: Ending): bytes {
    match e
    case Lf => [LF]
    case CrLf => [CR, LF]
    case LoneCr => [CR]
  }

  datatype Printed = Printed(text: bytes, ending: Ending)

  function PrintLine(l: Printed): bytes { l.text + EndingBytes(l.ending) }

  function Print(lines: seq<Printed>): bytes {
    if lines == [] then [] else PrintLine(lines[0]) + Print(lines[1..])
  }

  function Texts(lines: seq<Printed>): (texts: seq<bytes>)
    ensures |texts| == |lines|
    ensures forall k :: 0 <= k < |lines| ==> texts[k] == lines[k].text
  {
    if lines == [] then [] else [lines[0].text] + Texts(lines[1..])
  }

  predicate Clean(lines: seq<Printed>) {
    forall k :: 0 <= k < |lines| ==> NoBreak(lines[k].text)
  }

  /** A lone CR whose next line prints as a bare LF reads as one CR LF. */
  predicate Merges(a: Printed, b: Printed) {
    a.ending == LoneCr && b == Printed([], Lf)
  }

  predicate Faithful(lines: seq<Printed>) {
    forall k :: 0 <= k < |lines| - 1 ==> !Merges(lines[k], lines[k+1])
  }

  lemma PopPrinted(l: Printed, tail: bytes)
    requires NoBreak(l.text)
    ensures Pop(PrintLine(l) + tail, true) ==
            if l.ending == LoneCr && tail != [] && tail[0] == LF then Line(l.text, tail[1..]) else Line(l.text, tail)
  {
    var whole := PrintLine(l) + tail;
    var i := |l.text|;
    assert whole[..i] == l.text;
    FirstBreakUnique(whole, i);
    assert whole[i] == EndingBytes(l.ending)[0];
    match l.ending {
      case Lf => assert whole[i+1..] == tail;
      case CrLf => assert whole[i+1] == LF && whole[i+2..] == tail;
      case LoneCr =>
        assert whole[i+1..] == tail;
        if tail != [] {
          assert whole[i+1] == tail[0] && whole[i+2..] == tail[1..];
        }
    }
  }

  lemma PrintStartsWithLf(lines: seq<Printed>)
    requires Clean(lines)
    ensures (Print(lines) != [] && Print(lines)[0] == LF) <==> (lines != [] && lines[0] == Printed([], Lf))
  {
    if lines != [] {
      var l := lines[0];
      assert Print(lines)[0] == PrintLine(l)[0];
      if l.text != [] {
        assert PrintLine(l)[0] == l.text[0];
      }
    }
  }

  /** Every merge loses a line; nothing else does. */
  lemma {:induction false} SplitPrintedLength(lines: seq<Printed>)
    requires Clean(lines)
    ensures |SplitAll(Print(lines))| <= |lines|
    ensures Faithful(lines) ==> SplitAll(Print(lines)) == Texts(lines)
    ensures !Faithful(lines) ==> |SplitAll(Print(lines))| < |lines|
    decreases |lines|
  {
    if lines != [] {
      var rest := lines[1..];
      PopPrinted(lines[0], Print(rest));
      PrintStartsWithLf(rest);
      if rest != [] && Merges(lines[0], rest[0]) {
        assert Print(rest) == PrintLine(rest[0]) + Print(rest[1..]);
        assert PrintLine(rest[0]) == [LF];
        assert Print(rest)[1..] == Print(rest[1..]);
        SplitPrintedLength(rest[1..]);
      } else {
        SplitPrintedLength(rest);
        FaithfulTail(lines);
      }
    }
  }

  lemma FaithfulTail(lines: seq<Printed>)
    requires lines != []
    ensures Faithful(lines) <==> Faithful(lines[1..]) && (|lines| > 1 ==> !Merges(lines[0], lines[1]))
  {
    if Faithful(lines[1..]) && (|lines| > 1 ==> !Merges(lines[0], lines[1])) {
      forall k | 0 <= k < |lines| - 1 ensures !Merges(lines[k], lines[k+1]) {
        if k > 0 {
          assert !Merges(lines[1..][k-1], lines[1..][k]);
        }
      }
    }
  }

  /** Lines printed with any mix of endings are read back exactly when no CR meets a bare LF. */
  lemma LineRoundTrip(lines: seq<Printed>)
    requires Clean(lines)
    ensures SplitAll(Print(lines)) == Texts(lines) <==> Faithful(lines)
  {
    SplitPrintedLength(lines);
  }

  // ----- Events -----

  /** An event as a sender writes it: an optional name and at least one data line. */
  datatype Event = Event(name: Option<bytes>, data: seq<bytes>)

  function DataLine(value: bytes): bytes { DATA + [COLON, SPACE] + value }

  function EventLine(name: bytes): bytes { EVENT + [COLON, SPACE] + name }

  function DataLines(data: seq<bytes>): seq<bytes> {
    if data == [] then [] else [DataLine(data[0])] + DataLines(data[1..])
  }

  function NameLines(name: Option<bytes>): seq<bytes> {
    if name.Some? then [EventLine(name.value)] else []
  }

  const BLANK: seq<bytes> := [[]]

  /** An event's lines without the blank line that ends it. */
  function OpenLines(e: Event): seq<bytes> { NameLines(e.name) + DataLines(e.data) }

  function EventLines(e: Event): seq<bytes> { OpenLines(e) + BLANK }

  function StreamLines(events: seq<Event>): seq<bytes> {
    if events == [] then [] else EventLines(events[0]) + StreamLines(events[1..])
  }

  /** The bytes an event's lines count for. */
  function Size(lines: seq<bytes>): nat {
    if lines == [] then 0 else |lines[0]| + 1 + Size(lines[1..])
  }

  predicate Fits(e: Event) {
    && e.data != []
    && Size(OpenLines(e)) <= MAX_STREAM_EVENT_BYTES
  }

  predicate AllFit(events: seq<Event>) { forall k :: 0 <= k < |events| ==> Fits(events[k]) }

  /** The name an accumulator is given, or None when it cannot be decoded. */
  function NameOf<A(!new)>(p: Protocol<A>, e: Event): Option<Option<string>> {
    if !p.typed || e.name == None then Some(None)
    else
      match p.decodeName(e.name.value)
      case None => None
      case Some(name) => Some(if name == "" then None else Some(name))
  }

  /** What delivering exactly these events, in order, does to an accumulator. */
  function Deliver<A(!new)>(p: Protocol<A>, acc: A, events: seq<Event>): Progress<A>
    decreases |events|
  {
    if events == [] then Failed(IncompleteStream)
    else
      match NameOf(p, events[0])
      case None => Failed(InvalidStream)
      case Some(name) =>
        match p.consume(acc, Join(events[0].data), name)
        case Refused(failure) => Failed(failure)
        case Accepted(next) => if p.finished(next) then Done(next) else Deliver(p, next, events[1..])
  }

  lemma {:induction false} IndexOfSeparator(field: bytes, tail: bytes)
    requires COLON !in field
    ensures IndexOf(field + [COLON] + tail, COLON) == |field|
  {
    var line := field + [COLON] + tail;
    if field == [] {
      assert line[0] == COLON;
    } else {
      assert line[0] == field[0] && line[1..] == field[1..] + [COLON] + tail;
      IndexOfSeparator(field[1..], tail);
    }
  }

  lemma FieldSplit(field: bytes, value: bytes)
    requires COLON !in field
    ensures var line := field + [COLON, SPACE] + value;
            IndexOf(line, COLON) == |field| && line[..|field|] == field && StripSpace(line[|field| + 1..]) == value
  {
    var line := field + [COLON, SPACE] + value;
    IndexOfSeparator(field, [SPACE] + value);
    assert line == field + [COLON] + ([SPACE] + value);
    assert line[|field| + 1..] == [SPACE] + value;
  }

  lemma ProcessDataLine<A(!new)>(p: Protocol<A>, f: Frame<A>, value: bytes)
    requires f.eventBytes + |DataLine(value)| + 1 <= MAX_STREAM_EVENT_BYTES
    ensures ProcessLine(p, f, DataLine(value)) ==
            Running(Frame(false, f.dataLines + [value], f.eventName, f.eventBytes + |DataLine(value)| + 1, f.acc))
  {
    FieldSplit(DATA, value);
    assert DataLine(value)[0] == 100;
  }

  lemma ProcessNameLine<A(!new)>(p: Protocol<A>, f: Frame<A>, name: bytes)
    requires f.eventBytes + |EventLine(name)| + 1 <= MAX_STREAM_EVENT_BYTES
    requires f.eventName == None
    ensures var size := f.eventBytes + |EventLine(name)| + 1;
            ProcessLine(p, f, EventLine(name)) ==
            match NameOf(p, Event(Some(name), []))
            case None => Failed(InvalidStream)
            case Some(n) => Running(Frame(false, f.dataLines, n, size, f.acc))
  {
    FieldSplit(EVENT, name);
    assert EventLine(name)[0] == 101;
  }

  /** The frame that data lines leave. */
  function WithData<A(!new)>(f: Frame<A>, data: seq<bytes>): Frame<A> {
    Frame(f.firstLine && data == [], f.dataLines + data, f.eventName, f.eventBytes + Size(DataLines(data)), f.acc)
  }

  lemma WithDataStep<A(!new)>(f: Frame<A>, data: seq<bytes>)
    requires data != []
    ensures WithData(f, data) ==
            WithData(Frame(false, f.dataLines + [data[0]], f.eventName, f.eventBytes + |DataLine(data[0])| + 1, f.acc), data[1..])
  {
    assert (f.dataLines + [data[0]]) + data[1..] == f.dataLines + data;
    assert DataLines(data)[1..] == DataLines(data[1..]);
  }

  lemma {:induction false} ProcessDataLines<A(!new)>(p: Protocol<A>, f: Frame<A>, data: seq<bytes>)
    requires f.eventBytes + Size(DataLines(data)) <= MAX_STREAM_EVENT_BYTES
    ensures ProcessLines(p, f, DataLines(data)) == Running(WithData(f, data))
    decreases |data|
  {
    if data == [] {
      assert f.dataLines + data == f.dataLines;
    } else {
      var lines := DataLines(data);
      assert lines[0] == DataLine(data[0]) && lines[1..] == DataLines(data[1..]);
      ProcessDataLine(p, f, data[0]);
      WithDataStep(f, data);
      var g := ProcessLine(p, f, lines[0]).frame;
      ProcessDataLines(p, g, data[1..]);
    }
  }

  lemma {:induction false} SizeAppend(a: seq<bytes>, b: seq<bytes>)
    ensures Size(a + b) == Size(a) + Size(b)
  {
    if a == [] {
      assert a + b == b;
    } else {
      assert (a + b)[1..] == a[1..] + b;
      SizeAppend(a[1..], b);
    }
  }

  lemma ProcessNames<A(!new)>(p: Protocol<A>, f: Frame<A>, e: Event)
    requires f.eventName == None && f.eventBytes + Size(NameLines(e.name)) <= MAX_STREAM_EVENT_BYTES
    ensures ProcessLines(p, f, NameLines(e.name)) ==
            match NameOf(p, e)
            case None => Failed(InvalidStream)
            case Some(name) => Running(Frame(f.firstLine && e.name == None, f.dataLines, name, f.eventBytes + Size(NameLines(e.name)), f.acc))
  {
    if e.name.Some? {
      ProcessNameLine(p, f, e.name.value);
      assert NameLines(e.name)[1..] == [];
    }
  }

  /** The lines of an event, from a clean frame, collect its data and its name. */
  lemma ProcessOpen<A(!new)>(p: Protocol<A>, first: bool, acc: A, e: Event)
    requires Fits(e)
    ensures ProcessLines(p, Frame(first, [], None, 0, acc), OpenLines(e)) ==
            match NameOf(p, e)
            case None => Failed(InvalidStream)
            case Some(name) => Running(Frame(false, e.data, name, Size(OpenLines(e)), acc))
  {
    var f := Frame(first, [], None, 0, acc);
    var names, datas := NameLines(e.name), DataLines(e.data);
    SizeAppend(names, datas);
    ProcessLinesAppend(p, f, names, datas);
    ProcessNames(p, f, e);
    var named := ProcessLines(p, f, names);
    if named.Running? {
      ProcessDataLines(p, named.frame, e.data);
      assert [] + e.data == e.data;
    }
  }

  /** One printed event, from a clean frame, is one call of the accumulator. */
  lemma ProcessEvent<A(!new)>(p: Protocol<A>, first: bool, acc: A, e: Event)
    requires Fits(e)
    ensures ProcessLines(p, Frame(first, [], None, 0, acc), EventLines(e)) ==
            match NameOf(p, e)
            case None => Failed(InvalidStream)
            case Some(name) =>
              match p.consume(acc, Join(e.data), name)
              case Refused(failure) => Failed(failure)
              case Accepted(next) => if p.finished(next) then Done(next) else Running(Frame(false, [], None, 0, next))
  {
    ProcessOpen(p, first, acc, e);
    ProcessLinesAppend(p, Frame(first, [], None, 0, acc), OpenLines(e), BLANK);
    assert BLANK[1..] == [];
  }

  /** What a stream holds: whole events, and perhaps one whose blank line never came. */
  function StreamLinesOf(events: seq<Event>, pending: Option<Event>): seq<bytes> {
    StreamLines(events) + (if pending.Some? then OpenLines(pending.value) else [])
  }

  function Delivered(events: seq<Event>, pending: Option<Event>): seq<Event> {
    events + (if pending.Some? then [pending.value] else [])
  }

  lemma FirstEvent(events: seq<Event>, pending: Option<Event>)
    requires events != []
    ensures var all := Delivered(events, pending); all[0] == events[0] && all[1..] == Delivered(events[1..], pending)
    ensures StreamLinesOf(events, pending) == EventLines(events[0]) + StreamLinesOf(events[1..], pending)
  {
  }

  lemma ProcessPending<A(!new)>(p: Protocol<A>, first: bool, acc: A, pending: Option<Event>)
    requires !p.finished(acc) && AllFit(Delivered([], pending))
    ensures AtEof(p, ProcessLines(p, Frame(first, [], None, 0, acc), StreamLinesOf([], pending))) == Deliver(p, acc, Delivered([], pending))
  {
    if pending == None {
      assert StreamLinesOf([], pending) == [] && Delivered([], pending) == [];
    } else {
      assert Delivered([], pending)[0] == pending.value && Delivered([], pending)[1..] == [];
      assert StreamLinesOf([], pending) == OpenLines(pending.value);
      ProcessOpen(p, first, acc, pending.value);
    }
  }

  lemma {:induction false} ProcessEvents<A(!new)>(p: Protocol<A>, first: bool, acc: A, events: seq<Event>, pending: Option<Event>)
    requires !p.finished(acc) && AllFit(Delivered(events, pending))
    ensures AtEof(p, ProcessLines(p, Frame(first, [], None, 0, acc), StreamLinesOf(events, pending))) ==
            Deliver(p, acc, Delivered(events, pending))
    decreases |events|
  {
    if events == [] {
      ProcessPending(p, first, acc, pending);
    } else {
      var f := Frame(first, [], None, 0, acc);
      FirstEvent(events, pending);
      ProcessEvent(p, first, acc, events[0]);
      ProcessLinesAppend(p, f, EventLines(events[0]), StreamLinesOf(events[1..], pending));
      var r := ProcessLines(p, f, EventLines(events[0]));
      if r.Running? {
        ProcessEvents(p, false, r.frame.acc, events[1..], pending);
      }
    }
  }

  /** Lines written with endings that keep them apart. */
  predicate PrintedAs(lines: seq<Printed>, texts: seq<bytes>) {
    Texts(lines) == texts && Clean(lines) && Faithful(lines)
  }

  /**
   * Events written as `event:` and `data:` lines with any mix of line endings are
   * delivered exactly, in whatever chunks they arrive; only a cut at the held-back CR of
   * an event of exactly the limit makes the stream too large instead.
   */
  lemma EventRoundTrip<A(!new)>(p: Protocol<A>, events: seq<Event>, lines: seq<Printed>, chunks: seq<bytes>)
    requires p.Valid() && AllFit(events)
    requires PrintedAs(lines, StreamLines(events))
    requires Concat(chunks) == Print(lines) && |Print(lines)| <= MAX_STREAM_WIRE_BYTES
    ensures Reference(p, Print(lines)) == Deliver(p, p.start, events)
    ensures Consume(p, None, chunks) ==
            if CutAtHeldCr(p, chunks) then Failed(TooLarge(MAX_STREAM_EVENT_BYTES)) else Deliver(p, p.start, events)
  {
    LineRoundTrip(lines);
    assert StreamLinesOf(events, None) == StreamLines(events) && Delivered(events, None) == events;
    ProcessEvents(p, true, p.start, events, None);
    ChunkingTheorem(p, chunks);
  }

  // ----- The end of the file -----

  lemma SplitOne(line: bytes)
    requires NoBreak(line) && line != []
    ensures SplitAll(line) == [line]
  {
    assert line[..|line|] == line;
    FirstBreakUnique(line, |line|);
    assert Pop(line, true) == Line(line, []);
  }

  lemma PrintFirst(lines: seq<Printed>, tail: bytes)
    requires lines != []
    ensures Print(lines) + tail == PrintLine(lines[0]) + (Print(lines[1..]) + tail)
    ensures Texts(lines) + [tail] == [lines[0].text] + (Texts(lines[1..]) + [tail])
  {
    Reassociate(PrintLine(lines[0]), Print(lines[1..]), tail);
    Reassociate([lines[0].text], Texts(lines[1..]), [tail]);
  }

  lemma Reassociate<T>(a: seq<T>, b: seq<T>, c: seq<T>)
    ensures (a + b) + c == a + (b + c)
  {
  }

  lemma StartsWithLf(lines: seq<Printed>, tail: bytes)
    requires Clean(lines) && NoBreak(tail) && tail != []
    ensures var all := Print(lines) + tail; all != [] && (all[0] == LF <==> lines != [] && lines[0] == Printed([], Lf))
  {
    PrintStartsWithLf(lines);
    if Print(lines) != [] {
      assert (Print(lines) + tail)[0] == Print(lines)[0];
    } else if lines == [] {
      assert !IsBreak(tail[0]);
    }
  }

  /** A final line that has no ending is a line all the same. */
  lemma {:induction false} SplitUnended(lines: seq<Printed>, tail: bytes)
    requires Clean(lines) && Faithful(lines) && NoBreak(tail) && tail != []
    ensures SplitAll(Print(lines) + tail) == Texts(lines) + [tail]
    decreases |lines|
  {
    if lines == [] {
      assert Print(lines) + tail == tail && Texts(lines) + [tail] == [tail];
      SplitOne(tail);
    } else {
      var rest := lines[1..];
      PrintFirst(lines, tail);
      PopPrinted(lines[0], Print(rest) + tail);
      FaithfulTail(lines);
      StartsWithLf(rest, tail);
      SplitUnended(rest, tail);
    }
  }

  /** A stream whose last event lacks its blank line, and perhaps its last line's ending. */
  predicate PrintedUnterminated(lines: seq<Printed>, tail: bytes, events: seq<Event>, last: Event) {
    && Clean(lines) && Faithful(lines) && NoBreak(tail)
    && Texts(lines) + (if tail == [] then [] else [tail]) == StreamLinesOf(events, Some(last))
  }

  /** The event that the end of the file cuts short is delivered like the others. */
  lemma UnterminatedRoundTrip<A(!new)>(p: Protocol<A>, events: seq<Event>, last: Event,
                                       lines: seq<Printed>, tail: bytes, chunks: seq<bytes>)
    requires p.Valid() && AllFit(events + [last])
    requires PrintedUnterminated(lines, tail, events, last)
    requires Concat(chunks) == Print(lines) + tail && |Print(lines) + tail| <= MAX_STREAM_WIRE_BYTES
    ensures Reference(p, Print(lines) + tail) == Deliver(p, p.start, events + [last])
    ensures Consume(p, None, chunks) ==
            if CutAtHeldCr(p, chunks) then Failed(TooLarge(MAX_STREAM_EVENT_BYTES)) else Deliver(p, p.start, events + [last])
  {
    if tail == [] {
      assert Print(lines) + tail == Print(lines) && Texts(lines) + [] == Texts(lines);
      LineRoundTrip(lines);
    } else {
      SplitUnended(lines, tail);
    }
    assert Delivered(events, Some(last)) == events + [last];
    ProcessEvents(p, true, p.start, events, Some(last));
    ChunkingTheorem(p, chunks);
  }

  /** The rule of section 9.2.6 of the WHATWG HTML Living Standard: a pending event is dropped at the end of the file. */
  function DroppingReference<A(!new)>(p: Protocol<A>, stream: bytes): Progress<A> {
    match ProcessLines(p, Start(p), SplitAll(stream))
    case Running(_) => Failed(IncompleteStream)
    case stopped => stopped
  }

  /** The event that is pending at the end of the file: its payload and its name. */
  function PendingEvent<A(!new)>(p: Protocol<A>, stream: bytes): Option<Frame<A>> {
    match ProcessLines(p, Start(p), SplitAll(stream))
    case Running(f) => if f.dataLines == [] then None else Some(f)
    case _ => None
  }

  /**
   * The code agrees with the standard's rule exactly when no event is pending, or the
   * pending one neither finishes the accumulator nor is refused for another reason.
   */
  lemma DroppingIff<A(!new)>(p: Protocol<A>, stream: bytes)
    requires p.Valid()
    ensures Reference(p, stream) == DroppingReference(p, stream) <==>
            match PendingEvent(p, stream)
            case None => true
            case Some(f) =>
              match p.consume(f.acc, Join(f.dataLines), f.eventName)
              case Accepted(acc) => !p.finished(acc)
              case Refused(failure) => failure == IncompleteStream
  {
    ProcessLinesSane(p, Start(p), SplitAll(stream));
  }

  /** The error that a stream without its end is reported as; accumulators have one of the same type. */
  predicate Incomplete(failure: Failure) {
    failure == IncompleteStream || failure == ProviderError("incomplete_provider_stream", false)
  }

  /** The same outcome, but for the text of an error. */
  ghost predicate SameButForText<A(!new)>(a: Progress<A>, b: Progress<A>) {
    a == b || (a.Failed? && b.Failed? && Incomplete(a.failure) && Incomplete(b.failure))
  }

  /** The same for a caller who looks at the type of an error and not at its text. */
  lemma DroppingUnseenIff<A(!new)>(p: Protocol<A>, stream: bytes)
    requires p.Valid()
    ensures SameButForText(Reference(p, stream), DroppingReference(p, stream)) <==>
            match PendingEvent(p, stream)
            case None => true
            case Some(f) =>
              match p.consume(f.acc, Join(f.dataLines), f.eventName)
              case Accepted(acc) => !p.finished(acc)
              case Refused(failure) => Incomplete(failure)
  {
    ProcessLinesSane(p, Start(p), SplitAll(stream));
  }

  // ----- Events below the limit are never held up -----

  lemma {:induction false} EventBytesGrow<A(!new)>(p: Protocol<A>, f: Frame<A>, lines: seq<bytes>)
    ensures var r := ProcessLines(p, f, lines); r.Running? ==> r.frame.eventBytes <= f.eventBytes + Size(lines)
    decreases |lines|
  {
    if lines != [] {
      var r := ProcessLine(p, f, lines[0]);
      if r.Running? {
        EventBytesGrow(p, r.frame, lines[1..]);
      }
    }
  }

  predicate AllBelowLimit(events: seq<Event>) {
    forall k :: 0 <= k < |events| ==> events[k].data != [] && Size(OpenLines(events[k])) < MAX_STREAM_EVENT_BYTES
  }

  lemma {:induction false} NeverFull<A(!new)>(p: Protocol<A>, first: bool, acc: A, events: seq<Event>, n: nat)
    requires AllBelowLimit(events) && n <= |StreamLines(events)|
    ensures var r := ProcessLines(p, Frame(first, [], None, 0, acc), StreamLines(events)[..n]);
            r.Running? ==> r.frame.eventBytes < MAX_STREAM_EVENT_BYTES
    decreases |events|
  {
    if events != [] {
      var f := Frame(first, [], None, 0, acc);
      var own, rest := EventLines(events[0]), StreamLines(events[1..]);
      var taken := StreamLines(events)[..n];
      if n < |own| {
        var open := OpenLines(events[0]);
        assert taken == open[..n] && open == open[..n] + open[n..];
        SizeAppend(open[..n], open[n..]);
        EventBytesGrow(p, f, taken);
      } else {
        assert taken == own + rest[..n - |own|];
        ProcessEvent(p, first, acc, events[0]);
        ProcessLinesAppend(p, f, own, rest[..n - |own|]);
        var r := ProcessLines(p, f, own);
        if r.Running? {
          NeverFull(p, false, r.frame.acc, events[1..], n - |own|);
        }
      }
    }
  }

  lemma PrefixLines(prefix: bytes, tail: bytes)
    ensures SplitOpen(prefix).lines <= SplitAll(prefix + tail)
  {
    SplitAllAppend(prefix, tail);
  }

  lemma PrefixNotHeld<A(!new)>(p: Protocol<A>, events: seq<Event>, prefix: bytes)
    requires AllBelowLimit(events) && SplitOpen(prefix).lines <= StreamLines(events)
    ensures !HeldAtLimit(p, prefix)
  {
    var lines := SplitOpen(prefix).lines;
    assert lines == StreamLines(events)[..|lines|];
    NeverFull(p, true, p.start, events, |lines|);
  }

  lemma BelowLimitNeverHeld<A(!new)>(p: Protocol<A>, events: seq<Event>, stream: bytes)
    requires AllBelowLimit(events) && SplitAll(stream) == StreamLines(events)
    ensures NeverHeld(p, stream)
  {
    forall k | 0 <= k <= |stream|
      ensures !HeldAtLimit(p, stream[..k])
    {
      assert stream[..k] + stream[k..] == stream;
      PrefixLines(stream[..k], stream[k..]);
      PrefixNotHeld(p, events, stream[..k]);
    }
  }

  /** Events below the limit are delivered exactly from any chunks whatsoever. */
  lemma AnyChunksRoundTrip<A(!new)>(p: Protocol<A>, events: seq<Event>, lines: seq<Printed>, chunks: seq<bytes>)
    requires p.Valid() && AllBelowLimit(events)
    requires PrintedAs(lines, StreamLines(events))
    requires Concat(chunks) == Print(lines) && |Print(lines)| <= MAX_STREAM_WIRE_BYTES
    ensures Consume(p, None, chunks) == Deliver(p, p.start, events)
  {
    EventRoundTrip(p, events, lines, chunks);
    LineRoundTrip(lines);
    BelowLimitNeverHeld(p, events, Print(lines));
    NeverHeldNeverCut(p, chunks);
  }

  // ----- A recording accumulator, and the boundary case made concrete -----

  /** Records payloads, and is done after `count` of them. */
  function Recorder(count: nat): Protocol<seq<bytes>>
    requires count > 0
  {
    Protocol(false, [], (acc: seq<bytes>, payload, name) => Accepted(acc + [payload]),
             (acc: seq<bytes>) => |acc| == count, name => None)
  }

  function Payloads(events: seq<Event>): (r: seq<bytes>)
    ensures |r| == |events|
    ensures forall k :: 0 <= k < |events| ==> r[k] == Join(events[k].data)
  {
    if events == [] then [] else [Join(events[0].data)] + Payloads(events[1..])
  }

  lemma {:induction false} RecorderDelivers(count: nat, acc: seq<bytes>, events: seq<Event>)
    requires count > 0 && |acc| + |events| == count && events != []
    ensures Deliver(Recorder(count), acc, events) == Done(acc + Payloads(events))
    decreases |events|
  {
    var p := Recorder(count);
    var next := acc + [Join(events[0].data)];
    assert next + Payloads(events[1..]) == acc + Payloads(events);
    assert p.consume(acc, Join(events[0].data), None) == Accepted(next);
    assert p.finished(next) == (|next| == count);
    assert NameOf(p, events[0]) == Some(None);
    if |events| > 1 {
      RecorderDelivers(count, next, events[1..]);
    } else {
      assert Payloads(events[1..]) == [] && next + [] == next;
    }
  }

  /**
   * The boundary case is real: an event of exactly the event limit, ended by two
   * CRs and an LF, is delivered from one chunk and rejected from two.
   */
  lemma ChunkingMatters(payload: bytes)
    requires NoBreak(payload) && |DataLine(payload)| == MAX_STREAM_EVENT_BYTES - 1
    ensures var line := DataLine(payload);
            && Consume(Recorder(1), None, [line + [CR] + [CR, LF]]) == Done([payload])
            && Consume(Recorder(1), None, [line + [CR] + [CR], [LF]]) == Failed(TooLarge(MAX_STREAM_EVENT_BYTES))
  {
    var line := DataLine(payload);
    var stream := line + [CR] + [CR, LF];
    HeldCrExample(payload);
    var k := |line| + 2;
    assert stream[..k] == line + [CR] + [CR] && stream[k..] == [LF];
    CutThere(Recorder(1), stream, k);
    DoneAtOnce(Recorder(1), stream, [payload]);
  }

  /**
   * So is the other case: what follows a complete event decides, when one more chunk
   * would have held both, whether the event is delivered at all.
   */
  lemma WireMatters(payload: bytes, tail: bytes)
    requires NoBreak(payload) && |DataLine(payload)| + 1 <= MAX_STREAM_EVENT_BYTES && |tail| == MAX_STREAM_WIRE_BYTES
    ensures var event := Print([Printed(DataLine(payload), Lf), Printed([], Lf)]);
            && Consume(Recorder(1), None, [event, tail]) == Done([payload])
            && Consume(Recorder(1), None, [event + tail]) == Failed(TooLarge(MAX_STREAM_WIRE_BYTES))
  {
    var p, line := Recorder(1), DataLine(payload);
    var event := Print([Printed(line, Lf), Printed([], Lf)]);
    PrintedEvent(line);
    DeliveredEvent(payload);
    StopsFirst(p, event, tail);
    WireBreaks(p, event + tail);
  }

  lemma PrintedEvent(line: bytes)
    ensures Print([Printed(line, Lf), Printed([], Lf)]) == line + [LF] + [LF]
  {
    var lines := [Printed(line, Lf), Printed([], Lf)];
    assert lines[1..] == [Printed([], Lf)] && lines[1..][1..] == [];
    assert Print(lines[1..]) == [] + [LF] + [];
  }

  lemma DeliveredEvent(payload: bytes)
    requires NoBreak(payload) && |DataLine(payload)| + 1 <= MAX_STREAM_EVENT_BYTES
    ensures After(Recorder(1), DataLine(payload) + [LF] + [LF]).progress == Done([payload])
  {
    var p, line := Recorder(1), DataLine(payload);
    assert NoBreak(line);
    LfSplit(line);
    EventDone(payload);
  }

  lemma LfSplit(line: bytes)
    requires NoBreak(line)
    ensures SplitOpen(line + [LF] + [LF]).lines == [line] + BLANK
  {
    var whole := line + [LF] + [LF];
    assert whole[..|line|] == line && whole[|line| + 1..] == [LF];
    FirstBreakUnique(whole, |line|);
    assert Pop(whole, false) == Line(line, [LF]);
    SplitLf();
  }

  lemma SplitLf()
    ensures SplitOpen([LF]) == Split(BLANK, [])
  {
    var one := [LF];
    FirstBreakUnique(one, 0);
    assert Pop(one, false) == Line([], []);
  }

  lemma HeldCrSplit(line: bytes)
    requires NoBreak(line)
    ensures SplitOpen(line + [CR] + [CR]) == Split([line], [CR])
    ensures SplitOpen(line + [CR] + [CR, LF]) == Split([line] + BLANK, [])
  {
    SplitShort();
    SplitAfterCr(line, [CR]);
    SplitAfterCr(line, [CR, LF]);
  }

  lemma SplitShort()
    ensures SplitOpen([CR]) == Split([], [CR])
    ensures SplitOpen([CR, LF]) == Split(BLANK, [])
  {
    var two := [CR, LF];
    FirstBreakUnique(two, 0);
    assert Pop(two, false) == Line([], []);
  }

  lemma SplitAfterCr(line: bytes, tail: bytes)
    requires NoBreak(line) && tail != [] && tail[0] != LF
    ensures SplitOpen(line + [CR] + tail) == Split([line] + SplitOpen(tail).lines, SplitOpen(tail).rest)
  {
    var whole := line + [CR] + tail;
    assert whole[..|line|] == line && whole[|line|] == CR;
    FirstBreakUnique(whole, |line|);
    assert whole[|line| + 1] == tail[0] && whole[|line| + 1..] == tail;
  }

  lemma HeldCrExample(payload: bytes)
    requires NoBreak(payload) && |DataLine(payload)| == MAX_STREAM_EVENT_BYTES - 1
    ensures HeldAtLimit(Recorder(1), DataLine(payload) + [CR] + [CR])
    ensures After(Recorder(1), DataLine(payload) + [CR] + [CR, LF]).progress == Done([payload])
  {
    var p := Recorder(1);
    var line := DataLine(payload);
    assert NoBreak(line);
    HeldCrSplit(line);
    ProcessDataLine(p, Start(p), payload);
    var r := ProcessLine(p, Start(p), line);
    assert ProcessLines(p, Start(p), [line]) == ProcessLines(p, r.frame, [line][1..]) == r;
    EventDone(payload);
  }

  /** One data line and a blank one complete the recorder. */
  lemma EventDone(payload: bytes)
    requires NoBreak(payload) && |DataLine(payload)| + 1 <= MAX_STREAM_EVENT_BYTES
    ensures var p := Recorder(1); ProcessLines(p, Start(p), [DataLine(payload)] + BLANK) == Done([payload])
  {
    var p := Recorder(1);
    var line := DataLine(payload);
    ProcessDataLine(p, Start(p), payload);
    var r := ProcessLine(p, Start(p), line);
    assert r.frame.dataLines == [payload];
    assert ProcessLines(p, Start(p), [line]) == ProcessLines(p, r.frame, [line][1..]) == r;
    ProcessLinesAppend(p, Start(p), [line], BLANK);
    assert Join([payload]) == payload && [] + [payload] == [payload];
    assert p.consume([], payload, None) == Accepted([] + [payload]);
    assert p.finished([payload]);
    assert ProcessLine(p, r.frame, BLANK[0]) == Done([payload]);
  }

  /** A single chunk that completes the stream never reaches the remainder check. */
  lemma DoneAtOnce<A(!new)>(p: Protocol<A>, stream: bytes, acc: A)
    requires p.Valid() && |stream| <= MAX_STREAM_WIRE_BYTES
    requires After(p, stream).progress == Done(acc)
    ensures Consume(p, None, [stream]) == Done(acc)
  {
    assert After(p, []) == Initial(p);
    assert [] + stream == stream;
    FeedMoves(p, [], stream);
    var m := Feed(p, Initial(p), stream);
    assert FeedAll(p, Initial(p), [stream]) == FeedAll(p, m, [stream][1..]) == m;
  }

  /** The end-of-file difference is real: one unterminated event finishes the code's stream and not the standard's. */
  lemma UnterminatedExample(payload: bytes)
    requires NoBreak(payload) && |DataLine(payload)| + 1 <= MAX_STREAM_EVENT_BYTES
    ensures Reference(Recorder(1), DataLine(payload)) == Done([payload])
    ensures DroppingReference(Recorder(1), DataLine(payload)) == Failed(IncompleteStream)
  {
    var p := Recorder(1);
    var line := DataLine(payload);
    assert NoBreak(line);
    SplitUnended([], line);
    assert Print([]) + line == line && SplitAll(line) == [line];
    ProcessDataLine(p, Start(p), payload);
    var f := ProcessLine(p, Start(p), line).frame;
    assert [] + [payload] == [payload];
    assert ProcessLines(p, Start(p), [line]) == ProcessLines(p, f, [line][1..]) == Running(f);
    assert Join([payload]) == payload;
    assert p.consume([], payload, None) == Accepted([] + [payload]);
    assert p.finished([payload]);
  }
}
