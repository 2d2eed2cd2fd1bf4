/**
 * Every way to write an event: fields with a space after the colon, without one, or
 * without a colon; comments and other fields between them; a byte order mark first.
 */
module SseForms {
  import opened Prelude
  import opened SseLines
  import opened SseFraming
  import opened SseChunks
  import opened SseRoundTrip

  // ----- One line -----

  datatype Style = Spaced | Tight | Bare

  datatype Item = DataItem(value: bytes, style: Style) | NameItem(value: bytes, style: Style) | Other(line: bytes)

  function WriteField(field: bytes, value: bytes, style: Style): bytes {
    match style
    case Spaced => field + [COLON, SPACE] + value
    case Tight => field + [COLON] + value
    case Bare => field
  }

  /** A value that a style can write: a space at its start needs another before it. */
  predicate Writes(style: Style, value: bytes) {
    match style
    case Spaced => true
    case Tight => value == [] || value[0] != SPACE
    case Bare => value == []
  }

  predicate HasField(line: bytes, field: bytes) { line == field || field + [COLON] <= line }

  /** A comment, or a field that neither consumer reads. */
  predicate Foreign(line: bytes) { line != [] && !HasField(line, DATA) && !HasField(line, EVENT) }

  function Write(item: Item): bytes {
    match item
    case DataItem(value, style) => WriteField(DATA, value, style)
    case NameItem(value, style) => WriteField(EVENT, value, style)
    case Other(line) => line
  }

  predicate Good(item: Item) {
    match item
    case DataItem(value, style) => Writes(style, value)
    case NameItem(value, style) => Writes(style, value)
    case Other(line) => Foreign(line)
  }

  /** How a value that follows a colon was written. */
  function StyleOf(rest: bytes): Style { if rest != [] && rest[0] == SPACE then Spaced else Tight }

  function ValueOf(rest: bytes): bytes { if rest != [] && rest[0] == SPACE then rest[1..] else rest }

  lemma StyleIsRead(field: bytes, rest: bytes)
    ensures WriteField(field, ValueOf(rest), StyleOf(rest)) == field + [COLON] + rest && Writes(StyleOf(rest), ValueOf(rest))
  {
    if rest != [] && rest[0] == SPACE {
      assert [SPACE] + rest[1..] == rest;
      assert field + [COLON, SPACE] + rest[1..] == field + [COLON] + ([SPACE] + rest[1..]);
    }
  }

  /** Every line but the blank one is one of these items. */
  lemma EveryLineIsAnItem(line: bytes) returns (item: Item)
    requires line != []
    ensures Good(item) && Write(item) == line
  {
    if line == DATA {
      item := DataItem([], Bare);
    } else if line == EVENT {
      item := NameItem([], Bare);
    } else if DATA + [COLON] <= line {
      var rest := line[|DATA| + 1..];
      StyleIsRead(DATA, rest);
      assert line == DATA + [COLON] + rest;
      item := DataItem(ValueOf(rest), StyleOf(rest));
    } else if EVENT + [COLON] <= line {
      var rest := line[|EVENT| + 1..];
      StyleIsRead(EVENT, rest);
      assert line == EVENT + [COLON] + rest;
      item := NameItem(ValueOf(rest), StyleOf(rest));
    } else {
      item := Other(line);
    }
  }

  /** The name an accumulator is given for a decoded one. */
  function Given(name: string): Option<string> { if name == "" then None else Some(name) }

  /** What an item does to the event being assembled; None when its name cannot be decoded. */
  function Assemble<A(!new)>(p: Protocol<A>, f: Frame<A>, item: Item): Option<Frame<A>> {
    var size := f.eventBytes + |Write(item)| + 1;
    match item
    case DataItem(value, _) => Some(Frame(false, f.dataLines + [value], f.eventName, size, f.acc))
    case Other(_) => Some(Frame(false, f.dataLines, f.eventName, size, f.acc))
    case NameItem(value, _) =>
      if !p.typed then Some(Frame(false, f.dataLines, f.eventName, size, f.acc))
      else
        match p.decodeName(value)
        case None => None
        case Some(name) => Some(Frame(false, f.dataLines, Given(name), size, f.acc))
  }

  lemma NoColon(field: bytes)
    requires field == DATA || field == EVENT
    ensures COLON !in field && field != [] && field[0] != COLON && |field| >= 3 && !(BOM <= field)
  {
  }

  /** Where a written field ends, and what remains of it. */
  lemma FieldRead(field: bytes, value: bytes, style: Style)
    requires (field == DATA || field == EVENT) && Writes(style, value)
    ensures var line := WriteField(field, value, style);
            var colon := IndexOf(line, COLON);
            && line != [] && line[0] == field[0] && line[..colon] == field
            && (if colon < |line| then StripSpace(line[colon + 1..]) else []) == value
  {
    NoColon(field);
    var line := WriteField(field, value, style);
    match style
    case Spaced => FieldSplit(field, value);
    case Tight =>
      IndexOfSeparator(field, value);
      assert line[|field| + 1..] == value;
    case Bare =>
      NoSeparator(field);
      assert line[..|field|] == field;
  }

  lemma {:induction false} NoSeparator(text: bytes)
    requires COLON !in text
    ensures IndexOf(text, COLON) == |text|
  {
    if text != [] {
      assert forall b :: b in text[1..] ==> b in text;
      NoSeparator(text[1..]);
    }
  }

  /** A foreign line's field is neither of the two. */
  lemma ForeignField(line: bytes)
    requires Foreign(line)
    ensures line[..IndexOf(line, COLON)] != DATA && line[..IndexOf(line, COLON)] != EVENT
  {
    var colon := IndexOf(line, COLON);
    if colon < |line| {
      assert line[..colon] + [COLON] <= line;
    } else {
      assert line[..colon] == line;
    }
  }

  lemma ReadForeign<A(!new)>(p: Protocol<A>, f: Frame<A>, line: bytes)
    requires Foreign(line)
    ensures ProcessField(p, f, line) == Running(f)
  {
    ForeignField(line);
  }

  lemma ReadWritten<A(!new)>(p: Protocol<A>, f: Frame<A>, value: bytes, style: Style)
    requires Writes(style, value)
    ensures ProcessField(p, f, WriteField(DATA, value, style)) == Running(f.(dataLines := f.dataLines + [value]))
    ensures ProcessField(p, f, WriteField(EVENT, value, style)) ==
            if !p.typed then Running(f)
            else
              match p.decodeName(value)
              case None => Failed(InvalidStream)
              case Some(name) => Running(f.(eventName := Given(name)))
  {
    FieldRead(DATA, value, style);
    FieldRead(EVENT, value, style);
  }

  /** No field begins like a byte order mark; other lines may. */
  predicate Marked(item: Item) { BOM <= Write(item) }

  /**
   * A line does exactly what its item says, as long as the event stays within the limit;
   * one that passes the limit ends the stream.
   */
  lemma ReadItem<A(!new)>(p: Protocol<A>, f: Frame<A>, item: Item)
    requires Good(item) && !(f.firstLine && Marked(item))
    ensures ProcessLine(p, f, Write(item)) ==
            if f.eventBytes + |Write(item)| + 1 > MAX_STREAM_EVENT_BYTES then Failed(TooLarge(MAX_STREAM_EVENT_BYTES))
            else
              match Assemble(p, f, item)
              case None => Failed(InvalidStream)
              case Some(g) => Running(g)
  {
    var g := f.(firstLine := false, eventBytes := f.eventBytes + |Write(item)| + 1);
    match item
    case DataItem(value, style) =>
      FieldRead(DATA, value, style);
      ReadWritten(p, g, value, style);
    case NameItem(value, style) =>
      FieldRead(EVENT, value, style);
      ReadWritten(p, g, value, style);
    case Other(line) => ReadForeign(p, g, line);
  }

  /** A leading byte order mark is skipped; its bytes count with the rest of its line. */
  lemma ReadMark<A(!new)>(p: Protocol<A>, f: Frame<A>, line: bytes)
    requires f.firstLine && f.dataLines == [] && f.eventName == None && f.eventBytes == 0 && !p.finished(f.acc)
    ensures ProcessLine(p, f, BOM + line) == ProcessLine(p, f.(firstLine := false, eventBytes := if line == [] then 0 else 3), line)
  {
    assert (BOM + line)[3..] == line;
  }

  /** Data lines are handed over as they would be printed, each but the last ended by an LF. */
  lemma {:induction false} JoinIsPrinting(lines: seq<bytes>)
    requires lines != []
    ensures Join(lines) + [LF] == Print(Ended(lines))
  {
    if |lines| == 1 {
      assert Ended(lines)[1..] == [];
      assert PrintLine(Ended(lines)[0]) + [] == lines[0] + [LF];
    } else {
      JoinIsPrinting(lines[1..]);
      assert Ended(lines)[1..] == Ended(lines[1..]);
    }
  }

  function Ended(lines: seq<bytes>): (r: seq<Printed>)
    ensures |r| == |lines| && forall k :: 0 <= k < |lines| ==> r[k] == Printed(lines[k], Lf)
  {
    if lines == [] then [] else [Printed(lines[0], Lf)] + Ended(lines[1..])
  }

  // ----- One event -----

  function Lines(items: seq<Item>): seq<bytes> {
    if items == [] then [] else [Write(items[0])] + Lines(items[1..])
  }

  /** The values of the data fields, in order. */
  function Data(items: seq<Item>): seq<bytes> {
    if items == [] then []
    else if items[0].DataItem? then [items[0].value] + Data(items[1..])
    else Data(items[1..])
  }

  /** The name that counts: the first that cannot be decoded, else the last. */
  function NameIn<A(!new)>(p: Protocol<A>, items: seq<Item>): Option<bytes> {
    if items == [] then None
    else if items[0].NameItem? && p.typed && p.decodeName(items[0].value) == None then Some(items[0].value)
    else if NameIn(p, items[1..]) == None && items[0].NameItem? then Some(items[0].value)
    else NameIn(p, items[1..])
  }

  predicate Readable<A(!new)>(p: Protocol<A>, items: seq<Item>) {
    forall k :: 0 <= k < |items| && items[k].NameItem? && p.typed ==> p.decodeName(items[k].value).Some?
  }

  predicate AllGood(items: seq<Item>) { forall k :: 0 <= k < |items| ==> Good(items[k]) }

  lemma {:induction false} NameInMeans<A(!new)>(p: Protocol<A>, items: seq<Item>)
    ensures Readable(p, items) <==> NameOf(p, Event(NameIn(p, items), Data(items))).Some?
    ensures NameIn(p, items) == None ==> Readable(p, items)
  {
    if items != [] {
      NameInMeans(p, items[1..]);
      assert forall k :: 0 < k < |items| ==> items[k] == items[1..][k - 1];
      if Readable(p, items) {
        assert forall k :: 0 <= k < |items[1..]| ==> items[1..][k] == items[k + 1];
      }
    }
  }

  /** The name after a group of items: the given one when there is a name among them. */
  function NameAfter<A(!new)>(p: Protocol<A>, before: Option<string>, items: seq<Item>): Option<string> {
    if !p.typed || NameIn(p, items) == None then before
    else
      match p.decodeName(NameIn(p, items).value)
      case None => before
      case Some(name) => Given(name)
  }

  /** The frame that items leave when all names can be decoded. */
  function AfterItems<A(!new)>(p: Protocol<A>, f: Frame<A>, items: seq<Item>): Frame<A> {
    Frame(f.firstLine && items == [], f.dataLines + Data(items), NameAfter(p, f.eventName, items),
          f.eventBytes + Size(Lines(items)), f.acc)
  }

  lemma AfterFirst<A(!new)>(p: Protocol<A>, f: Frame<A>, items: seq<Item>)
    requires items != [] && Readable(p, items)
    ensures Assemble(p, f, items[0]).Some? && AfterItems(p, Assemble(p, f, items[0]).value, items[1..]) == AfterItems(p, f, items)
  {
    NameInMeans(p, items[1..]);
    assert Lines(items)[1..] == Lines(items[1..]);
    if items[0].DataItem? {
      assert (f.dataLines + [items[0].value]) + Data(items[1..]) == f.dataLines + Data(items);
    }
  }

  /** Nothing about the first line depends on a byte order mark. */
  predicate Unmarked(items: seq<Item>) { items != [] ==> !Marked(items[0]) }

  lemma {:induction false} ReadItems<A(!new)>(p: Protocol<A>, f: Frame<A>, items: seq<Item>)
    requires AllGood(items) && (f.firstLine ==> Unmarked(items))
    requires f.eventBytes + Size(Lines(items)) <= MAX_STREAM_EVENT_BYTES
    ensures ProcessLines(p, f, Lines(items)) == if Readable(p, items) then Running(AfterItems(p, f, items)) else Failed(InvalidStream)
    decreases |items|
  {
    if items == [] {
      assert f.dataLines + [] == f.dataLines;
    } else {
      var lines := Lines(items);
      assert lines[0] == Write(items[0]) && lines[1..] == Lines(items[1..]);
      ReadItem(p, f, items[0]);
      ReadableStep(p, items);
      var g := Assemble(p, f, items[0]);
      if g.Some? {
        ReadItems(p, g.value, items[1..]);
      }
      if Readable(p, items) {
        AfterFirst(p, f, items);
      }
    }
  }

  lemma ReadableStep<A(!new)>(p: Protocol<A>, items: seq<Item>)
    requires items != []
    ensures Readable(p, items) <==>
            (items[0].NameItem? && p.typed ==> p.decodeName(items[0].value).Some?) && Readable(p, items[1..])
  {
    if (items[0].NameItem? && p.typed ==> p.decodeName(items[0].value).Some?) && Readable(p, items[1..]) {
      assert forall k :: 0 < k < |items| ==> items[k] == items[1..][k - 1];
    }
  }

  /** The events that a group of items hands over: none without data, unless its name is in error. */
  function EventsIn<A(!new)>(p: Protocol<A>, items: seq<Item>): seq<Event> {
    if Data(items) == [] && Readable(p, items) then [] else [Event(NameIn(p, items), Data(items))]
  }

  /** The lines of one event, from a clean frame, collect its data and its name. */
  lemma ReadEvent<A(!new)>(p: Protocol<A>, first: bool, size: nat, acc: A, items: seq<Item>)
    requires AllGood(items) && (first ==> Unmarked(items)) && size + Size(Lines(items)) <= MAX_STREAM_EVENT_BYTES
    ensures var e := Event(NameIn(p, items), Data(items));
            ProcessLines(p, Frame(first, [], None, size, acc), Lines(items)) ==
            match NameOf(p, e)
            case None => Failed(InvalidStream)
            case Some(name) => Running(Frame(first && items == [], Data(items), name, size + Size(Lines(items)), acc))
  {
    ReadItems(p, Frame(first, [], None, size, acc), items);
    NameInMeans(p, items);
    assert [] + Data(items) == Data(items);
  }

  // ----- A whole stream -----

  /** Groups of items, each ended by a blank line but perhaps the last. */
  function GroupLines(groups: seq<seq<Item>>, pending: Option<seq<Item>>): seq<bytes> {
    if groups == [] then (if pending.Some? then Lines(pending.value) else [])
    else Lines(groups[0]) + BLANK + GroupLines(groups[1..], pending)
  }

  function EventsOf<A(!new)>(p: Protocol<A>, groups: seq<seq<Item>>, pending: Option<seq<Item>>): seq<Event> {
    if groups == [] then (if pending.Some? then EventsIn(p, pending.value) else [])
    else EventsIn(p, groups[0]) + EventsOf(p, groups[1..], pending)
  }

  predicate GoodGroup(items: seq<Item>, size: nat) { AllGood(items) && size + Size(Lines(items)) <= MAX_STREAM_EVENT_BYTES }

  /** Every event fits, the first together with what precedes it. */
  predicate AllFitting(groups: seq<seq<Item>>, pending: Option<seq<Item>>, size: nat) {
    if groups == [] then pending.Some? ==> GoodGroup(pending.value, size)
    else GoodGroup(groups[0], size) && AllFitting(groups[1..], pending, 0)
  }

  predicate StartsUnmarked(groups: seq<seq<Item>>, pending: Option<seq<Item>>) {
    if groups == [] then pending.Some? ==> Unmarked(pending.value) else Unmarked(groups[0])
  }

  lemma ReadPending<A(!new)>(p: Protocol<A>, first: bool, size: nat, acc: A, items: seq<Item>)
    requires !p.finished(acc) && GoodGroup(items, size) && (first ==> Unmarked(items))
    ensures AtEof(p, ProcessLines(p, Frame(first, [], None, size, acc), Lines(items))) == Deliver(p, acc, EventsIn(p, items))
  {
    ReadEvent(p, first, size, acc, items);
    NameInMeans(p, items);
    var events := EventsIn(p, items);
    if events != [] {
      assert events[1..] == [];
    }
  }

  /** One group and its blank line. */
  lemma ReadGroup<A(!new)>(p: Protocol<A>, first: bool, size: nat, acc: A, items: seq<Item>)
    requires !p.finished(acc) && GoodGroup(items, size) && (first ==> Unmarked(items))
    ensures var r := ProcessLines(p, Frame(first, [], None, size, acc), Lines(items) + BLANK);
            if EventsIn(p, items) == [] then r == Running(Frame(false, [], None, 0, acc))
            else
              match NameOf(p, EventsIn(p, items)[0])
              case None => r == Failed(InvalidStream)
              case Some(name) =>
                match p.consume(acc, Join(EventsIn(p, items)[0].data), name)
                case Refused(failure) => r == Failed(failure)
                case Accepted(next) => r == if p.finished(next) then Done(next) else Running(Frame(false, [], None, 0, next))
  {
    ReadEvent(p, first, size, acc, items);
    NameInMeans(p, items);
    BadNameHasNoDispatch(p, items);
    ProcessLinesAppend(p, Frame(first, [], None, size, acc), Lines(items), BLANK);
    assert BLANK[1..] == [];
  }

  lemma BadNameHasNoDispatch<A(!new)>(p: Protocol<A>, items: seq<Item>)
    ensures EventsIn(p, items) != [] && Data(items) == [] ==> NameOf(p, EventsIn(p, items)[0]) == None
  {
    NameInMeans(p, items);
  }

  lemma DeliverFirst<A(!new)>(p: Protocol<A>, acc: A, own: seq<Event>, rest: seq<Event>)
    requires |own| <= 1
    ensures own == [] ==> own + rest == rest
    ensures own != [] ==> (own + rest)[0] == own[0] && (own + rest)[1..] == rest
  {
  }

  lemma {:induction false} ReadGroups<A(!new)>(p: Protocol<A>, first: bool, size: nat, acc: A, groups: seq<seq<Item>>, pending: Option<seq<Item>>)
    requires !p.finished(acc) && AllFitting(groups, pending, size) && (first ==> StartsUnmarked(groups, pending))
    ensures AtEof(p, ProcessLines(p, Frame(first, [], None, size, acc), GroupLines(groups, pending))) ==
            Deliver(p, acc, EventsOf(p, groups, pending))
    decreases |groups|
  {
    var f := Frame(first, [], None, size, acc);
    if groups == [] {
      if pending.Some? {
        ReadPending(p, first, size, acc, pending.value);
      }
    } else {
      var own, rest := Lines(groups[0]) + BLANK, GroupLines(groups[1..], pending);
      ReadGroup(p, first, size, acc, groups[0]);
      ProcessLinesAppend(p, f, own, rest);
      DeliverFirst(p, acc, EventsIn(p, groups[0]), EventsOf(p, groups[1..], pending));
      var r := ProcessLines(p, f, own);
      if r.Running? {
        ReadGroups(p, false, 0, r.frame.acc, groups[1..], pending);
      }
    }
  }

  /** A stream as it is written: with or without a byte order mark, any line endings, the last perhaps missing. */
  datatype Script = Script(marked: bool, groups: seq<seq<Item>>, pending: Option<seq<Item>>, lines: seq<Printed>, tail: bytes)

  function WithMark(lines: seq<bytes>): seq<bytes>
    requires lines != []
  {
    [BOM + lines[0]] + lines[1..]
  }

  function Bytes(s: Script): bytes { Print(s.lines) + s.tail }

  /** The bytes counted before the first event: those of the mark, unless it stands alone on its line. */
  function MarkSize(s: Script): nat {
    if s.marked && GroupLines(s.groups, s.pending) != [] && GroupLines(s.groups, s.pending)[0] != [] then 3 else 0
  }

  predicate Written(s: Script) {
    var lines := GroupLines(s.groups, s.pending);
    && Clean(s.lines) && Faithful(s.lines) && NoBreak(s.tail)
    && (s.marked ==> lines != [])
    && Texts(s.lines) + (if s.tail == [] then [] else [s.tail]) == (if s.marked then WithMark(lines) else lines)
    && AllFitting(s.groups, s.pending, MarkSize(s))
    && (!s.marked ==> StartsUnmarked(s.groups, s.pending))
  }

  lemma ReadBytes(s: Script)
    requires Written(s)
    ensures var lines := GroupLines(s.groups, s.pending);
            SplitAll(Bytes(s)) == if s.marked then WithMark(lines) else lines
  {
    if s.tail == [] {
      assert Print(s.lines) + s.tail == Print(s.lines) && Texts(s.lines) + [] == Texts(s.lines);
      LineRoundTrip(s.lines);
    } else {
      SplitUnended(s.lines, s.tail);
    }
  }

  lemma ReadMarked<A(!new)>(p: Protocol<A>, lines: seq<bytes>)
    requires p.Valid() && lines != []
    ensures ProcessLines(p, Start(p), WithMark(lines)) ==
            ProcessLines(p, Frame(false, [], None, if lines[0] == [] then 0 else 3, p.start), lines)
  {
    ReadMark(p, Start(p), lines[0]);
    assert WithMark(lines)[0] == BOM + lines[0] && WithMark(lines)[1..] == lines[1..];
  }

  /**
   * However its events are written, a stream is delivered exactly, from whatever chunks
   * it arrives in; only a cut at the held-back CR of an event of exactly the limit makes
   * it too large instead.
   */
  lemma FormsRoundTrip<A(!new)>(p: Protocol<A>, s: Script, chunks: seq<bytes>)
    requires p.Valid() && Written(s)
    requires Concat(chunks) == Bytes(s) && |Bytes(s)| <= MAX_STREAM_WIRE_BYTES
    ensures Reference(p, Bytes(s)) == Deliver(p, p.start, EventsOf(p, s.groups, s.pending))
    ensures Consume(p, None, chunks) ==
            if CutAtHeldCr(p, chunks) then Failed(TooLarge(MAX_STREAM_EVENT_BYTES))
            else Deliver(p, p.start, EventsOf(p, s.groups, s.pending))
  {
    ReadBytes(s);
    if s.marked {
      ReadMarked(p, GroupLines(s.groups, s.pending));
    }
    ReadGroups(p, !s.marked, MarkSize(s), p.start, s.groups, s.pending);
    ChunkingTheorem(p, chunks);
  }
}
