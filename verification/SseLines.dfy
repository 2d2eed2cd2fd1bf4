/**
 * Cutting a byte buffer into Server-Sent Event lines.
 *
 * A line ends at LF, at CR LF, or at a lone CR.  Until the end of the stream is
 * known, a CR in the last position is held back: the next byte decides whether
 * it is half of a CR LF.
 */
module SseLines {
  import opened Prelude

  const LF: byte := 10
  const CR: byte := 13

  predicate IsBreak(b: byte) { b == LF || b == CR }

  predicate NoBreak(text: bytes) { forall k :: 0 <= k < |text| ==> !IsBreak(text[k]) }

  datatype Popped = Pending | Line(text: bytes, rest: bytes)

  /** Position of the first line break, or the length of the buffer. */
  function FirstBreak(buffer: bytes): (i: nat)
    ensures i <= |buffer|
    ensures NoBreak(buffer[..i])
    ensures i < |buffer| ==> IsBreak(buffer[i])
  {
    if buffer == [] || IsBreak(buffer[0]) then 0
    else
      var i := 1 + FirstBreak(buffer[1..]);
      assert forall k :: 1 <= k < i ==> buffer[k] == buffer[1..][..i-1][k-1];
      i
  }

  lemma {:induction false} FirstBreakUnique(buffer: bytes, i: nat)
    requires i <= |buffer| && NoBreak(buffer[..i]) && (i < |buffer| ==> IsBreak(buffer[i]))
    ensures FirstBreak(buffer) == i
  {
    if i > 0 {
      assert !IsBreak(buffer[..i][0]);
      assert buffer[1..][..i-1] == buffer[..i][1..];
      FirstBreakUnique(buffer[1..], i - 1);
    }
  }

  /** What removing one line from the front of the buffer yields. */
  function Pop(buffer: bytes, atEof: bool): (p: Popped)
    ensures p.Line? ==> |p.rest| < |buffer| && NoBreak(p.text)
    ensures p.Pending? && atEof ==> buffer == []
  {
    var i := FirstBreak(buffer);
    if i == |buffer| then
      if atEof && buffer != [] then
        assert buffer[..i] == buffer;
        Line(buffer, [])
      else Pending
    else if buffer[i] == LF then Line(buffer[..i], buffer[i+1..])
    else if i + 1 == |buffer| && !atEof then Pending
    else if i + 1 < |buffer| && buffer[i+1] == LF then Line(buffer[..i], buffer[i+2..])
    else Line(buffer[..i], buffer[i+1..])
  }

  /** The buffer the stream reader appends to and deletes from. */
  class LineBuffer {
    var data: bytes

    constructor ()
      ensures data == []
    {
      data := [];
    }

    method Extend(chunk: bytes)
      modifies this
      ensures data == old(data) + chunk
    {
      data := data + chunk;
    }

    /** Scan for the first line ending and delete the line and its ending. */
    method PopLine(atEof: bool) returns (line: Option<bytes>)
      modifies this
      ensures match Pop(old(data), atEof)
              case Pending => line == None && data == old(data)
              case Line(text, rest) => line == Some(text) && data == rest
    {
      ghost var whole := data;
      var index := 0;
      while index < |data|
        invariant 0 <= index <= |data| && data == whole
        invariant NoBreak(data[..index])
      {
        var value := data[index];
        if value == LF {
          FirstBreakUnique(data, index);
          line := Some(data[..index]);
          data := data[index + 1..];
          return;
        }
        if value == CR {
          FirstBreakUnique(data, index);
          if index + 1 == |data| && !atEof {
            return None;
          }
          var endingSize := if index + 1 < |data| && data[index + 1] == LF then 2 else 1;
          line := Some(data[..index]);
          data := data[index + endingSize..];
          return;
        }
        index := index + 1;
      }
      FirstBreakUnique(data, index);
      if atEof && data != [] {
        line := Some(data);
        data := [];
        return;
      }
      line := None;
    }
  }

  datatype Split = Split(lines: seq<bytes>, rest: bytes)

  /** Every complete line of the buffer, and the undecided remainder. */
  function SplitOpen(buffer: bytes): (s: Split)
    ensures Pop(s.rest, false).Pending?
    decreases |buffer|
  {
    match Pop(buffer, false)
    case Pending => Split([], buffer)
    case Line(text, rest) =>
      var tail := SplitOpen(rest);
      Split([text] + tail.lines, tail.rest)
  }

  /** The lines of a complete stream. */
  function SplitAll(stream: bytes): (lines: seq<bytes>)
    ensures forall k :: 0 <= k < |lines| ==> NoBreak(lines[k])
    decreases |stream|
  {
    match Pop(stream, true)
    case Pending => []
    case Line(text, rest) => [text] + SplitAll(rest)
  }

  /** A line popped without knowing the future is popped in every future. */
  lemma PopStable(a: bytes, b: bytes, atEof: bool)
    requires Pop(a, false).Line?
    ensures Pop(a + b, atEof) == Line(Pop(a, false).text, Pop(a, false).rest + b)
  {
    var i := FirstBreak(a);
    assert (a + b)[..i] == a[..i];
    FirstBreakUnique(a + b, i);
    assert (a + b)[i] == a[i];
    assert (a + b)[i+1..] == a[i+1..] + b;
    if i + 1 < |a| {
      assert (a + b)[i+1] == a[i+1];
      assert (a + b)[i+2..] == a[i+2..] + b;
    }
  }

  /** Splitting in two instalments is splitting once. */
  lemma {:induction false} SplitOpenAppend(a: bytes, b: bytes)
    ensures var first := SplitOpen(a);
            var second := SplitOpen(first.rest + b);
            SplitOpen(a + b) == Split(first.lines + second.lines, second.rest)
    decreases |a|
  {
    match Pop(a, false)
    case Pending =>
    case Line(text, rest) =>
      PopStable(a, b, false);
      SplitOpenAppend(rest, b);
      var first := SplitOpen(rest);
      var second := SplitOpen(first.rest + b);
      assert [text] + (first.lines + second.lines) == ([text] + first.lines) + second.lines;
  }

  /** The whole-stream split starts with the lines any prefix already decides. */
  lemma {:induction false} SplitAllAppend(a: bytes, b: bytes)
    ensures SplitAll(a + b) == SplitOpen(a).lines + SplitAll(SplitOpen(a).rest + b)
    decreases |a|
  {
    match Pop(a, false)
    case Pending =>
    case Line(text, rest) =>
      PopStable(a, b, true);
      SplitAllAppend(rest, b);
  }

  /** An undecided remainder is at most one line when the stream ends there. */
  lemma ResidualIsOneLine(rest: bytes)
    requires Pop(rest, false).Pending?
    ensures |SplitAll(rest)| == if rest == [] then 0 else 1
    ensures rest != [] ==> rest == SplitAll(rest)[0] || rest == SplitAll(rest)[0] + [CR]
  {
    var i := FirstBreak(rest);
    if i < |rest| {
      assert rest == rest[..i] + [CR];
      assert Pop(rest, true) == Line(rest[..i], rest[i+1..]);
      assert rest[i+1..] == [];
    }
  }
}
