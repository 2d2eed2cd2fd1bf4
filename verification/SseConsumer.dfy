/**
 * The consumer as it runs: a line buffer and counters updated in place, chunk by
 * chunk, proved to compute SseChunks.Consume.
 */
module SseConsumer {
  import opened Prelude
  import opened SseLines
  import opened SseFraming
  import opened SseChunks

  class Consumer<A(!new)> {
    const p: Protocol<A>
    const lineBuffer: LineBuffer
    var dataLines: seq<bytes>
    var eventName: Option<string>
    var eventBytes: nat
    var wireBytes: nat
    var firstLine: bool
    var acc: A

    ghost function Current(): Frame<A>
      reads this
    {
      Frame(firstLine, dataLines, eventName, eventBytes, acc)
    }

    constructor (p: Protocol<A>)
      ensures this.p == p && fresh(lineBuffer)
      ensures Current() == Start(p) && lineBuffer.data == [] && wireBytes == 0
    {
      this.p := p;
      lineBuffer := new LineBuffer();
      dataLines, eventName, eventBytes, wireBytes, firstLine := [], None, 0, 0, true;
      acc := p.start;
    }

    method DispatchEvent() returns (failure: Option<Failure>)
      modifies this
      ensures match Dispatch(p, old(Current()))
              case Refused(e) => failure == Some(e)
              case Accepted(a) => failure == None && Current() == old(Current()).(acc := a, dataLines := [], eventName := None)
      ensures wireBytes == old(wireBytes)
    {
      if dataLines != [] {
        match p.consume(acc, Join(dataLines), eventName) {
          case Refused(e) => return Some(e);
          case Accepted(a) => acc := a;
        }
        dataLines := [];
      }
      eventName := None;
      failure := None;
    }

    method ProcessLine(line: bytes) returns (failure: Option<Failure>)
      modifies this
      ensures match SseFraming.ProcessLine(p, old(Current()), line)
              case Failed(e) => failure == Some(e)
              case Done(a) => failure == None && acc == a && p.finished(a)
              case Running(f) => failure == None && Current() == f && (!p.finished(old(acc)) ==> !p.finished(acc))
      ensures wireBytes == old(wireBytes)
    {
      var rawLineSize := |line|;
      var body := line;
      if firstLine {
        firstLine := false;
        if BOM <= line {
          body := line[3..];
        }
      }
      if body == [] {
        failure := DispatchEvent();
        if failure == None {
          eventBytes := 0;
        }
        return;
      }
      eventBytes := eventBytes + rawLineSize + 1;
      if eventBytes > MAX_STREAM_EVENT_BYTES {
        return Some(TooLarge(MAX_STREAM_EVENT_BYTES));
      }
      failure := None;
      if body[0] == COLON {
        return;
      }
      var colon := IndexOf(body, COLON);
      var field := body[..colon];
      var value := if colon < |body| then StripSpace(body[colon + 1..]) else [];
      if field == DATA {
        dataLines := dataLines + [value];
      } else if p.typed && field == EVENT {
        match p.decodeName(value) {
          case None => return Some(InvalidStream);
          case Some(name) => eventName := if name == "" then None else Some(name);
        }
      }
    }

    /** Feed one chunk; `stop` means the accumulator is done. */
    method ProcessChunk(chunk: bytes) returns (stop: bool, failure: Option<Failure>)
      requires !p.finished(acc)
      modifies this, lineBuffer
      ensures var before := Machine(old(lineBuffer.data), old(wireBytes), Running(old(Current())));
              var after := Feed(p, before, chunk);
              match after.progress
              case Failed(e) => failure == Some(e)
              case Done(a) => failure == None && stop && acc == a
              case Running(f) =>
                && failure == None && !stop && !p.finished(acc)
                && Current() == f && lineBuffer.data == after.buffer && wireBytes == after.wireBytes
    {
      wireBytes := wireBytes + |chunk|;
      stop := false;
      if wireBytes > MAX_STREAM_WIRE_BYTES {
        return false, Some(TooLarge(MAX_STREAM_WIRE_BYTES));
      }
      lineBuffer.Extend(chunk);
      ghost var split := SplitOpen(lineBuffer.data);
      ghost var target := ProcessLines(p, Current(), split.lines);
      while true
        invariant SplitOpen(lineBuffer.data).rest == split.rest
        invariant ProcessLines(p, Current(), SplitOpen(lineBuffer.data).lines) == target
        invariant !p.finished(acc) && wireBytes == old(wireBytes) + |chunk|
        decreases |lineBuffer.data|
      {
        var line := lineBuffer.PopLine(false);
        if line == None {
          break;
        }
        failure := ProcessLine(line.value);
        if failure != None {
          return;
        }
        if p.finished(acc) {
          return true, None;
        }
      }
      if eventBytes + |lineBuffer.data| > MAX_STREAM_EVENT_BYTES {
        return false, Some(TooLarge(MAX_STREAM_EVENT_BYTES));
      }
      failure := None;
    }

    /** Consume a whole response body. */
    method Run(declaredLength: Option<int>, chunks: seq<bytes>) returns (outcome: Progress<A>)
      requires p.Valid()
      requires Current() == Start(p) && lineBuffer.data == [] && wireBytes == 0
      modifies this, lineBuffer
      ensures outcome == Consume(p, declaredLength, chunks)
    {
      if declaredLength != None && declaredLength.value > MAX_STREAM_WIRE_BYTES {
        return Failed(TooLarge(MAX_STREAM_WIRE_BYTES));
      }
      ghost var target := FeedAll(p, Initial(p), chunks);
      var next := 0;
      while next < |chunks|
        invariant 0 <= next <= |chunks|
        invariant !p.finished(acc)
        invariant FeedAll(p, Machine(lineBuffer.data, wireBytes, Running(Current())), chunks[next..]) == target
      {
        var stop, failure := ProcessChunk(chunks[next]);
        assert chunks[next..][0] == chunks[next] && chunks[next..][1..] == chunks[next + 1..];
        if failure != None {
          return Failed(failure.value);
        }
        if stop {
          return Done(acc);
        }
        next := next + 1;
      }
      ghost var final := ProcessLines(p, Current(), SplitAll(lineBuffer.data));
      while true
        invariant !p.finished(acc)
        invariant ProcessLines(p, Current(), SplitAll(lineBuffer.data)) == final
        decreases |lineBuffer.data|
      {
        var line := lineBuffer.PopLine(true);
        if line == None {
          break;
        }
        var failure := ProcessLine(line.value);
        if failure != None {
          return Failed(failure.value);
        }
        if p.finished(acc) {
          return Done(acc);
        }
      }
      var failure := DispatchEvent();
      if failure != None {
        return Failed(failure.value);
      }
      outcome := if p.finished(acc) then Done(acc) else Failed(IncompleteStream);
    }
  }
}
