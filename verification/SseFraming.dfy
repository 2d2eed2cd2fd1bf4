/**
 * From lines to events: the byte-limited framing shared by the Chat Completions
 * consumer and the typed (Responses, Messages) consumer.
 *
 * The protocol accumulator is a parameter, so every result here holds for any of
 * them.  The two consumers differ in one point only: the typed one also reads
 * `event:` fields and hands the name over with the data.
 */
module SseFraming {
  import opened Prelude
  import opened SseLines

  const MAX_STREAM_WIRE_BYTES: nat := 64 * 1024 * 1024
  const MAX_STREAM_EVENT_BYTES: nat := 1024 * 1024

  const COLON: byte := 58
  const SPACE: byte := 32
  const BOM: bytes := [0xEF, 0xBB, 0xBF]
  const DATA: bytes := [100, 97, 116, 97]
  const EVENT: bytes := [101, 118, 101, 110, 116]

  /** Why a stream was abandoned. */
  datatype Failure =
    | TooLarge(limit: nat)
    | InvalidStream
    | ProviderError(errorType: string, retryable: bool)
    | IncompleteStream

  datatype Consumed<+A> = Accepted(acc: A) | Refused(failure: Failure)

  /** A protocol accumulator: its initial state, its event step, and when it is done. */
  datatype Protocol<!A(!new)> = Protocol(
    typed: bool,
    start: A,
    consume: (A, bytes, Option<string>) -> Consumed<A>,
    finished: A -> bool,
    decodeName: bytes -> Option<string>)
  {
    predicate Valid() { !finished(start) }
  }

  /** The event being assembled, and the accumulator so far. */
  datatype Frame<+A> = Frame(
    firstLine: bool,
    dataLines: seq<bytes>,
    eventName: Option<string>,
    eventBytes: nat,
    acc: A)

  datatype Progress<+A> = Running(frame: Frame<A>) | Done(acc: A) | Failed(failure: Failure)

  function Start<A(!new)>(p: Protocol<A>): Frame<A> { Frame(true, [], None, 0, p.start) }

  function Join(lines: seq<bytes>): bytes {
    if lines == [] then []
    else if |lines| == 1 then lines[0]
    else lines[0] + [LF] + Join(lines[1..])
  }

  function IndexOf(text: bytes, b: byte): (i: nat)
    ensures i <= |text| && b !in text[..i]
    ensures i < |text| ==> text[i] == b
  {
    if text == [] || text[0] == b then 0
    else
      assert forall k: nat :: k < IndexOf(text[1..], b) ==> text[k + 1] == text[1..][k];
      1 + IndexOf(text[1..], b)
  }

  /** Hand the collected data lines, if any, to the accumulator. */
  function Dispatch<A(!new)>(p: Protocol<A>, f: Frame<A>): Consumed<A> {
    if f.dataLines == [] then Accepted(f.acc)
    else p.consume(f.acc, Join(f.dataLines), f.eventName)
  }

  function StripSpace(value: bytes): bytes {
    if value != [] && value[0] == SPACE then value[1..] else value
  }

  /** A non-empty line that passed the size check. */
  function ProcessField<A(!new)>(p: Protocol<A>, f: Frame<A>, line: bytes): Progress<A>
    requires line != []
  {
    if line[0] == COLON then Running(f)
    else
      var colon := IndexOf(line, COLON);
      var field := line[..colon];
      var value := if colon < |line| then StripSpace(line[colon + 1..]) else [];
      if field == DATA then Running(f.(dataLines := f.dataLines + [value]))
      else if p.typed && field == EVENT then
        match p.decodeName(value)
        case None => Failed(InvalidStream)
        case Some(name) => Running(f.(eventName := if name == "" then None else Some(name)))
      else Running(f)
  }

  /** One line of the stream, and the check for completion that follows it. */
  function ProcessLine<A(!new)>(p: Protocol<A>, f: Frame<A>, line: bytes): Progress<A> {
    var body := if f.firstLine && BOM <= line then line[3..] else line;
    if body == [] then
      match Dispatch(p, f)
      case Refused(failure) => Failed(failure)
      case Accepted(acc) => if p.finished(acc) then Done(acc) else Running(Frame(false, [], None, 0, acc))
    else
      var size := f.eventBytes + |line| + 1;
      if size > MAX_STREAM_EVENT_BYTES then Failed(TooLarge(MAX_STREAM_EVENT_BYTES))
      else ProcessField(p, f.(firstLine := false, eventBytes := size), body)
  }

  function ProcessLines<A(!new)>(p: Protocol<A>, f: Frame<A>, lines: seq<bytes>): Progress<A>
    decreases |lines|
  {
    if lines == [] then Running(f)
    else
      match ProcessLine(p, f, lines[0])
      case Running(g) => ProcessLines(p, g, lines[1..])
      case stopped => stopped
  }

  /** End of stream: an unterminated event is still dispatched. */
  function AtEof<A(!new)>(p: Protocol<A>, progress: Progress<A>): (outcome: Progress<A>)
    ensures !outcome.Running?
    ensures !progress.Running? ==> outcome == progress
    ensures progress.Running? && progress.frame.dataLines == [] && !p.finished(progress.frame.acc) ==> outcome == Failed(IncompleteStream)
  {
    match progress
    case Running(f) =>
      (match Dispatch(p, f)
       case Refused(failure) => Failed(failure)
       case Accepted(acc) => if p.finished(acc) then Done(acc) else Failed(IncompleteStream))
    case stopped => stopped
  }

  /** The meaning of a whole stream: split it once, then process its lines. */
  function Reference<A(!new)>(p: Protocol<A>, stream: bytes): Progress<A> {
    AtEof(p, ProcessLines(p, Start(p), SplitAll(stream)))
  }

  predicate SaneFrame<A(!new)>(p: Protocol<A>, f: Frame<A>) {
    && f.eventBytes <= MAX_STREAM_EVENT_BYTES
    && (f.firstLine ==> f.eventBytes == 0 && f.dataLines == [])
    && !p.finished(f.acc)
  }

  lemma {:induction false} ProcessLinesSane<A(!new)>(p: Protocol<A>, f: Frame<A>, lines: seq<bytes>)
    requires SaneFrame(p, f)
    ensures var r := ProcessLines(p, f, lines);
            r.Running? ==> SaneFrame(p, r.frame) && (lines != [] ==> !r.frame.firstLine)
    decreases |lines|
  {
    if lines != [] {
      var r := ProcessLine(p, f, lines[0]);
      if r.Running? {
        ProcessLinesSane(p, r.frame, lines[1..]);
      }
    }
  }

  lemma {:induction false} ProcessLinesAppend<A(!new)>(p: Protocol<A>, f: Frame<A>, a: seq<bytes>, b: seq<bytes>)
    ensures var first := ProcessLines(p, f, a);
            ProcessLines(p, f, a + b) == if first.Running? then ProcessLines(p, first.frame, b) else first
    decreases |a|
  {
    if a == [] {
      assert a + b == b;
    } else {
      assert (a + b)[0] == a[0] && (a + b)[1..] == a[1..] + b;
      var r := ProcessLine(p, f, a[0]);
      if r.Running? {
        ProcessLinesAppend(p, r.frame, a[1..], b);
      }
    }
  }
}
