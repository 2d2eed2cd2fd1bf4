/** The Anthropic Messages accumulator. */
module MessagesAccumulator {
  import opened Prelude
  import opened SseFraming
  import opened SseLines
  import opened SseChunks
  import opened SseRoundTrip
  import opened SseForms
  import opened StreamFields

  const RATE_LIMIT_CODES: set<string> := {"rate_limit_error"}
  const SERVER_CODES: set<string> := {"api_error", "overloaded_error", "timeout_error"}

  datatype Block = NotAMapping | Block(isText: bool, text: Field)

  datatype Message = Message(id: Field, model: Field, stopReason: Field, usage: Shape<Usage>, content: Shape<seq<Block>>)

  datatype Delta = Delta(isText: bool, text: Field, stopReason: Field)

  /** A decoded payload; the members that an event type does not use are ignored. */
  datatype Payload =
    | Undecodable
    | Payload(bodyType: TypeField, codes: set<string>, message: Shape<Message>, delta: Shape<Delta>, usage: Shape<Usage>)

  datatype EventKind = Unresolved | ErrorEvent | MessageStart | BlockDelta | MessageDelta | MessageStop | Ignored

  function KindOf(p: Payload, name: Option<string>): EventKind {
    if p.Undecodable? then Unresolved
    else
      match ResolveType(name, p.bodyType)
      case None => Unresolved
      case Some(t) =>
        if t == "error" then ErrorEvent
        else if t == "message_start" then MessageStart
        else if t == "content_block_delta" then BlockDelta
        else if t == "message_delta" then MessageDelta
        else if t == "message_stop" then MessageStop
        else Ignored
  }

  datatype MessagesState = MessagesState(
    body: Body,
    usage: Usage,
    requestId: Option<Text>,
    model: Option<Text>,
    finishReason: Option<Text>,
    sawStart: bool,
    done: bool)
  {
    predicate Valid() { body.Valid() }
  }

  const EMPTY := MessagesState(Body([], 0), map[], None, None, None, false, false)

  function OptionalText(field: Field): Option<Option<Text>> {
    match field
    case Absent => Some(None)
    case NotText => None
    case Text(t) => Some(Some(t))
  }

  /** The usage members an update supplies. */
  function Supplied(update: Shape<Usage>): Usage { if update.Present? then update.value else map[] }

  function MergeUsage(usage: Usage, update: Shape<Usage>): (r: Option<Usage>)
    ensures r == if update.WrongShape? then None else Some(usage + Supplied(update))
  {
    match update
    case Missing => assert usage + map[] == usage; Some(usage)
    case WrongShape => None
    case Present(u) => Some(usage + u)
  }

  /** Append the text blocks of the initial message, stopping at the first bad one. */
  function AppendBlocks(body: Body, blocks: seq<Block>): (r: (Body, Option<Failure>))
    requires body.Valid()
    ensures r.0.Valid()
    decreases |blocks|
  {
    if blocks == [] then (body, None)
    else
      match blocks[0]
      case NotAMapping => (body, Some(InvalidStream))
      case Block(isText, text) =>
        if !isText then AppendBlocks(body, blocks[1..])
        else
          match AppendText(body, text)
          case Ok(next) => AppendBlocks(next, blocks[1..])
          case Rejected(failure) => (body, Some(failure))
  }

  function BeginMessage(s: MessagesState, message: Message): (r: (MessagesState, Option<Failure>))
    requires s.Valid()
    ensures r.0.Valid()
  {
    var s0 := s.(sawStart := true);
    match OptionalText(message.id)
    case None => (s0, Some(InvalidStream))
    case Some(id) =>
      var s1 := s0.(requestId := id);
      match OptionalText(message.model)
      case None => (s1, Some(InvalidStream))
      case Some(model) =>
        var s2 := s1.(model := model);
        match OptionalText(message.stopReason)
        case None => (s2, Some(InvalidStream))
        case Some(reason) =>
          var s3 := s2.(finishReason := reason);
          match MergeUsage(s.usage, message.usage)
          case None => (s3, Some(InvalidStream))
          case Some(usage) =>
            var s4 := s3.(usage := usage);
            match message.content
            case Missing => (s4, None)
            case WrongShape => (s4, Some(InvalidStream))
            case Present(blocks) =>
              var (body, failure) := AppendBlocks(s4.body, blocks);
              (s4.(body := body), failure)
  }

  /** One event: the new state, and the failure if it is rejected part-way. */
  function Step(s: MessagesState, p: Payload, name: Option<string>): (r: (MessagesState, Option<Failure>))
    requires s.Valid()
    ensures r.0.Valid()
  {
    StepAs(s, p, KindOf(p, name))
  }

  /** One event of a kind; only a decoded payload has one that reads its members. */
  function StepAs(s: MessagesState, p: Payload, kind: EventKind): (r: (MessagesState, Option<Failure>))
    requires s.Valid() && (p.Undecodable? ==> kind == Unresolved)
    ensures r.0.Valid()
  {
    match kind
    case Unresolved => (s, Some(InvalidStream))
    case ErrorEvent => (s, Some(ErrorOf(p.codes, RATE_LIMIT_CODES, SERVER_CODES)))
    case MessageStart =>
      if s.sawStart || !p.message.Present? then (s, Some(InvalidStream)) else BeginMessage(s, p.message.value)
    case BlockDelta =>
      if !s.sawStart || !p.delta.Present? then (s, Some(InvalidStream))
      else if !p.delta.value.isText then (s, None)
      else
        (match AppendText(s.body, p.delta.value.text)
         case Ok(body) => (s.(body := body), None)
         case Rejected(failure) => (s, Some(failure)))
    case MessageDelta =>
      if !s.sawStart || !p.delta.Present? then (s, Some(InvalidStream))
      else
        (match CaptureStable(s.finishReason, p.delta.value.stopReason)
         case None => (s, Some(InvalidStream))
         case Some(reason) =>
           match MergeUsage(s.usage, p.usage)
           case None => (s.(finishReason := reason), Some(InvalidStream))
           case Some(usage) => (s.(finishReason := reason, usage := usage), None))
    case MessageStop => if !s.sawStart then (s, Some(InvalidStream)) else (s.(done := true), None)
    case Ignored => (s, None)
  }

  class Accumulator {
    var body: Body
    var usage: Usage
    var requestId: Option<Text>
    var model: Option<Text>
    var finishReason: Option<Text>
    var sawStart: bool
    var done: bool

    ghost function State(): MessagesState
      reads this
    {
      MessagesState(body, usage, requestId, model, finishReason, sawStart, done)
    }

    constructor ()
      ensures State() == EMPTY
    {
      body, usage := Body([], 0), map[];
      requestId, model, finishReason := None, None, None;
      sawStart, done := false, false;
    }

    method ConsumeInitialContent(blocks: seq<Block>) returns (failure: Option<Failure>)
      requires body.Valid()
      modifies this`body
      ensures (body, failure) == AppendBlocks(old(body), blocks)
    {
      var next := 0;
      while next < |blocks|
        invariant 0 <= next <= |blocks| && body.Valid()
        invariant AppendBlocks(body, blocks[next..]) == AppendBlocks(old(body), blocks)
      {
        var block := blocks[next];
        assert blocks[next..][0] == block && blocks[next..][1..] == blocks[next + 1..];
        next := next + 1;
        if block.NotAMapping? {
          return Some(InvalidStream);
        }
        if !block.isText {
          continue;
        }
        var appended := AppendText(body, block.text);
        if appended.Rejected? {
          return Some(appended.failure);
        }
        body := appended.body;
      }
      failure := None;
    }

    method StartMessage(message: Message) returns (failure: Option<Failure>)
      requires body.Valid()
      modifies this
      ensures (State(), failure) == BeginMessage(old(State()), message)
    {
      sawStart := true;
      var text := OptionalText(message.id);
      if text == None { return Some(InvalidStream); }
      requestId := text.value;
      text := OptionalText(message.model);
      if text == None { return Some(InvalidStream); }
      model := text.value;
      text := OptionalText(message.stopReason);
      if text == None { return Some(InvalidStream); }
      finishReason := text.value;
      var merged := MergeUsage(usage, message.usage);
      if merged == None { return Some(InvalidStream); }
      usage := merged.value;
      if message.content.Missing? { return None; }
      if message.content.WrongShape? { return Some(InvalidStream); }
      failure := ConsumeInitialContent(message.content.value);
    }

    method ConsumeEvent(p: Payload, name: Option<string>) returns (failure: Option<Failure>)
      requires body.Valid()
      modifies this
      ensures (State(), failure) == Step(old(State()), p, name)
    {
      var kind := KindOf(p, name);
      if kind == Unresolved { return Some(InvalidStream); }
      if kind == ErrorEvent {
        return Some(ErrorOf(p.codes, RATE_LIMIT_CODES, SERVER_CODES));
      }
      if kind == MessageStart {
        if sawStart || !p.message.Present? { return Some(InvalidStream); }
        failure := StartMessage(p.message.value);
        return;
      }
      if kind == BlockDelta {
        if !sawStart || !p.delta.Present? { return Some(InvalidStream); }
        if p.delta.value.isText {
          var appended := AppendText(body, p.delta.value.text);
          if appended.Rejected? { return Some(appended.failure); }
          body := appended.body;
        }
        return None;
      }
      if kind == MessageDelta {
        if !sawStart || !p.delta.Present? { return Some(InvalidStream); }
        var captured := CaptureStable(finishReason, p.delta.value.stopReason);
        if captured == None { return Some(InvalidStream); }
        finishReason := captured.value;
        var merged := MergeUsage(usage, p.usage);
        if merged == None { return Some(InvalidStream); }
        usage := merged.value;
        return None;
      }
      if kind == MessageStop {
        if !sawStart { return Some(InvalidStream); }
        done := true;
      }
      failure := None;
    }
  }

  // ----- Runs -----

  type Input = (Payload, Option<string>)

  datatype RunResult = Ran(state: MessagesState) | Stopped(failure: Failure)

  function Run(inputs: seq<Input>): (r: RunResult)
    ensures r.Ran? ==> r.state.Valid()
  {
    if inputs == [] then Ran(EMPTY)
    else
      var last := inputs[|inputs|-1];
      match Run(inputs[..|inputs|-1])
      case Stopped(failure) => Stopped(failure)
      case Ran(s) =>
        var (next, failure) := Step(s, last.0, last.1);
        if failure.Some? then Stopped(failure.value) else Ran(next)
  }

  // What events are is said of the type they declare, by name.

  function Declared(e: Input): Option<string> { if e.0.Undecodable? then None else ResolveType(e.1, e.0.bodyType) }

  predicate Declares(e: Input, name: string) { Declared(e).Some? && Declared(e).value == name }

  predicate Starts(e: Input) { Declares(e, "message_start") }

  predicate AddsText(e: Input) { Declares(e, "content_block_delta") }

  predicate Updates(e: Input) { Declares(e, "message_delta") }

  predicate Stops(e: Input) { Declares(e, "message_stop") }

  /** Events that end the run wherever they come. */
  predicate Aborts(e: Input) { Declared(e) == None || Declares(e, "error") }

  function Kind(e: Input): EventKind { KindOf(e.0, e.1) }

  /** The accumulator tells the declared types apart as it should. */
  lemma KindMeans(e: Input)
    ensures Kind(e).MessageStart? <==> Starts(e)
    ensures Kind(e).BlockDelta? <==> AddsText(e)
    ensures Kind(e).MessageDelta? <==> Updates(e)
    ensures Kind(e).MessageStop? <==> Stops(e)
    ensures Kind(e).Unresolved? <==> Declared(e) == None
    ensures Kind(e).ErrorEvent? <==> Declares(e, "error")
  {
    NamesDiffer();
  }

  lemma NamesDiffer()
    ensures |"error"| == 5 && |"message_stop"| == 12 && |"message_start"| == |"message_delta"| == 13 && |"content_block_delta"| == 19
    ensures "message_start"[8] != "message_delta"[8]
  {
  }

  /** What an event says, by its declared type and by its kind. */
  lemma AsKind(e: Input)
    ensures TextOf(e) == TextAs(e.0, Kind(e)) && ReasonField(e) == ReasonAs(e.0, Kind(e))
    ensures NeedsStart(e) <==> NeedsStartAs(Kind(e))
    ensures WellFormed(e) <==> WellFormedAs(e.0, Kind(e))
  {
    KindMeans(e);
  }

  function BlocksText(blocks: seq<Block>): Text {
    if blocks == [] then []
    else (if blocks[0].Block? && blocks[0].isText && blocks[0].text.Text? then blocks[0].text.text else []) + BlocksText(blocks[1..])
  }

  /** The text one event carries. */
  function TextOf(e: Input): Text {
    if Starts(e) && e.0.message.Present? then InitialText(e.0.message.value)
    else if AddsText(e) && e.0.delta.Present? && e.0.delta.value.isText && e.0.delta.value.text.Text? then e.0.delta.value.text.text
    else []
  }

  function TextAs(p: Payload, kind: EventKind): Text {
    if p.Undecodable? then []
    else if kind.MessageStart? && p.message.Present? then InitialText(p.message.value)
    else if kind.BlockDelta? && p.delta.Present? && p.delta.value.isText && p.delta.value.text.Text? then p.delta.value.text.text
    else []
  }

  function UsageOf(e: Input): Usage {
    if Starts(e) && e.0.message.Present? then Supplied(e.0.message.value.usage)
    else if Updates(e) then Supplied(e.0.usage)
    else map[]
  }

  function Content(inputs: seq<Input>): Text {
    if inputs == [] then [] else Content(inputs[..|inputs|-1]) + TextOf(inputs[|inputs|-1])
  }

  /** The last event that supplies a usage member decides its value. */
  predicate LastWriter(inputs: seq<Input>, key: Text, i: nat) {
    && i < |inputs| && key in UsageOf(inputs[i])
    && forall j: nat :: i < j < |inputs| ==> key !in UsageOf(inputs[j])
  }

  /** The stop reason an event carries. */
  function ReasonField(e: Input): Field {
    if Starts(e) && e.0.message.Present? then e.0.message.value.stopReason
    else if Updates(e) && e.0.delta.Present? then e.0.delta.value.stopReason
    else Absent
  }

  function ReasonAs(p: Payload, kind: EventKind): Field {
    if p.Undecodable? then Absent
    else if kind.MessageStart? && p.message.Present? then p.message.value.stopReason
    else if kind.MessageDelta? && p.delta.Present? then p.delta.value.stopReason
    else Absent
  }

  function Reasons(inputs: seq<Input>): seq<Field> {
    if inputs == [] then [] else Reasons(inputs[..|inputs|-1]) + [ReasonField(inputs[|inputs|-1])]
  }

  predicate OneStart(inputs: seq<Input>, s: MessagesState) {
    if s.sawStart then
      exists k :: 0 <= k < |inputs| && StartAt(inputs, s, k)
    else forall j :: 0 <= j < |inputs| ==> !NeedsStart(inputs[j]) && !Starts(inputs[j])
  }

  predicate NeedsStart(e: Input) { AddsText(e) || Updates(e) || Stops(e) }

  predicate NeedsStartAs(kind: EventKind) { kind.BlockDelta? || kind.MessageDelta? || kind.MessageStop? }

  /** The only message_start is event k; nothing that needs it precedes it; it set the ids. */
  predicate StartAt(inputs: seq<Input>, s: MessagesState, k: nat)
    requires k < |inputs|
  {
    && Starts(inputs[k])
    && inputs[k].0.message.Present?
    && OptionalText(inputs[k].0.message.value.id) == Some(s.requestId)
    && OptionalText(inputs[k].0.message.value.model) == Some(s.model)
    && (forall j :: 0 <= j < |inputs| && Starts(inputs[j]) ==> j == k)
    && (forall j :: 0 <= j < k ==> !NeedsStart(inputs[j]))
  }

  function BlockText(b: Block): Text { if b.Block? && b.isText && b.text.Text? then b.text.text else [] }

  lemma BlocksGrow(before: Text, blocks: seq<Block>)
    requires blocks != []
    ensures before + BlocksText(blocks) == (before + BlockText(blocks[0])) + BlocksText(blocks[1..])
    ensures Utf8Size(before + BlockText(blocks[0])) <= Utf8Size(before + BlocksText(blocks))
    ensures BlockText(blocks[0]) == [] ==> before + BlocksText(blocks) == before + BlocksText(blocks[1..])
  {
    Pieces(before, BlockText(blocks[0]), BlocksText(blocks[1..]));
    NothingAdded(before);
    assert BlocksText(blocks) == BlockText(blocks[0]) + BlocksText(blocks[1..]);
  }

  lemma {:induction false} AppendBlocksContent(body: Body, blocks: seq<Block>)
    requires body.Valid()
    ensures AppendBlocks(body, blocks).1 == None ==> AppendBlocks(body, blocks).0.content == body.content + BlocksText(blocks)
    decreases |blocks|
  {
    if blocks == [] {
      NothingAdded(body.content);
    } else {
      BlocksGrow(body.content, blocks);
      if blocks[0].Block? && blocks[0].isText {
        var r := AppendText(body, blocks[0].text);
        if r.Ok? {
          AppendBlocksContent(r.body, blocks[1..]);
        }
      } else if blocks[0].Block? {
        AppendBlocksContent(body, blocks[1..]);
      }
    }
  }

  function InitialText(message: Message): Text {
    if message.content.Present? then BlocksText(message.content.value) else []
  }

  lemma BeginText(s: MessagesState, message: Message)
    requires s.Valid() && BeginMessage(s, message).1 == None
    ensures BeginMessage(s, message).0.body.content == s.body.content + InitialText(message)
  {
    if message.content.Present? {
      AppendBlocksContent(s.body, message.content.value);
    } else {
      var same := s.body.content + [];
      assert same == s.body.content;
    }
  }

  lemma BeginMeaning(s: MessagesState, message: Message)
    requires s.Valid() && BeginMessage(s, message).1 == None
    ensures var t := BeginMessage(s, message).0;
            && t.usage == s.usage + Supplied(message.usage)
            && t.sawStart && t.done == s.done
            && OptionalText(message.id) == Some(t.requestId) && OptionalText(message.model) == Some(t.model)
  {
  }

  /** What one accepted event adds to the text. */
  lemma StepContent(s: MessagesState, e: Input)
    requires s.Valid() && Step(s, e.0, e.1).1 == None
    ensures Step(s, e.0, e.1).0.body.content == s.body.content + TextOf(e)
  {
    AsKind(e);
    KindMeans(e);
    var nothing := s.body.content + [];
    assert nothing == s.body.content;
    match Kind(e) {
      case MessageStart => BeginText(s, e.0.message.value);
      case BlockDelta =>
      case _ =>
    }
  }

  /** What one accepted event overwrites in the usage. */
  lemma StepUsage(s: MessagesState, e: Input)
    requires s.Valid() && Step(s, e.0, e.1).1 == None
    ensures Step(s, e.0, e.1).0.usage == s.usage + UsageOf(e)
  {
    AsKind(e);
    KindMeans(e);
    var same := s.usage + map[];
    assert same == s.usage;
    match Kind(e) {
      case MessageStart => BeginMeaning(s, e.0.message.value);
      case MessageDelta =>
      case _ =>
    }
  }

  /** What one accepted event changes: start, end and ids. */
  lemma StepOrder(s: MessagesState, e: Input)
    requires s.Valid() && Step(s, e.0, e.1).1 == None
    ensures var t := Step(s, e.0, e.1).0;
            && t.sawStart == (s.sawStart || Starts(e))
            && t.done == (s.done || Stops(e))
            && (NeedsStart(e) ==> s.sawStart)
            && (Starts(e) ==>
                !s.sawStart && e.0.message.Present?
                && OptionalText(e.0.message.value.id) == Some(t.requestId)
                && OptionalText(e.0.message.value.model) == Some(t.model))
            && (!Starts(e) ==> t.requestId == s.requestId && t.model == s.model)
            && (s.finishReason.Some? && s.sawStart ==> t.finishReason == s.finishReason)
  {
    AsKind(e);
    KindMeans(e);
    if Starts(e) {
      BeginMeaning(s, e.0.message.value);
    }
  }

  /** Usage is overwritten member by member: the last event to supply one decides it. */
  ghost predicate UsageOverwritten(inputs: seq<Input>, usage: Usage) {
    && (forall key: Text :: key in usage <==> exists i: nat :: LastWriter(inputs, key, i))
    && (forall key: Text, i: nat :: LastWriter(inputs, key, i) ==> usage[key] == UsageOf(inputs[i])[key])
  }

  /**
   * What an accepted run of events has built: the text in order and within the limit,
   * usage overwritten member by member, the ids of the single message_start, and done
   * only after it.
   */
  ghost predicate Built(inputs: seq<Input>, s: MessagesState) {
    && s.Valid() && s.body.content == Content(inputs)
    && UsageOverwritten(inputs, s.usage)
    && OneStart(inputs, s)
    && (s.done ==> s.sawStart && HasStop(inputs))
  }

  predicate HasStop(inputs: seq<Input>) { exists j :: 0 <= j < |inputs| && Stops(inputs[j]) }

  lemma StopStays(before: seq<Input>, e: Input)
    ensures HasStop(before) || Stops(e) ==> HasStop(before + [e])
  {
    var inputs := before + [e];
    assert inputs[|before|] == e;
    if HasStop(before) {
      var j :| 0 <= j < |before| && Stops(before[j]);
      assert Stops(inputs[j]);
    }
  }

  lemma BuiltGrows(before: seq<Input>, e: Input, t: MessagesState, s: MessagesState)
    requires Built(before, t) && Step(t, e.0, e.1) == (s, None)
    ensures Built(before + [e], s)
  {
    var inputs := before + [e];
    assert inputs[..|inputs|-1] == before;
    StepContent(t, e);
    StepUsage(t, e);
    StepOrder(t, e);
    OneStartGrows(before, e, t, s);
    UsageGrows(before, e, t.usage);
    StopStays(before, e);
  }

  /** One event more or less at the end of a run. */
  lemma RunSnoc(inputs: seq<Input>)
    requires inputs != [] && Run(inputs).Ran?
    ensures var before, e := inputs[..|inputs|-1], inputs[|inputs|-1];
            Run(before).Ran? && Step(Run(before).state, e.0, e.1) == (Run(inputs).state, None)
  {
  }

  lemma BuiltNothing()
    ensures Built([], EMPTY)
  {
  }

  lemma Rejoined(inputs: seq<Input>)
    requires inputs != []
    ensures inputs[..|inputs|-1] + [inputs[|inputs|-1]] == inputs
  {
  }

  /** Every accepted run has built what its events say. */
  lemma {:induction false} RunMeaning(inputs: seq<Input>)
    requires Run(inputs).Ran?
    ensures Built(inputs, Run(inputs).state)
  {
    if inputs == [] {
      BuiltNothing();
    } else {
      var before, e := inputs[..|inputs|-1], inputs[|inputs|-1];
      RunSnoc(inputs);
      RunMeaning(before);
      BuiltGrows(before, e, Run(before).state, Run(inputs).state);
      Rejoined(inputs);
    }
  }

  lemma OneStartGrows(before: seq<Input>, e: Input, t: MessagesState, s: MessagesState)
    requires t.Valid() && OneStart(before, t) && Step(t, e.0, e.1) == (s, None)
    ensures OneStart(before + [e], s)
  {
    StepOrder(t, e);
    var inputs := before + [e];
    if t.sawStart {
      var k :| 0 <= k < |before| && StartAt(before, t, k);
      assert inputs[k] == before[k];
      assert StartAt(inputs, s, k);
    } else if s.sawStart {
      assert StartAt(inputs, s, |before|);
    }
  }

  lemma UsageGrows(before: seq<Input>, e: Input, usage: Usage)
    requires UsageOverwritten(before, usage)
    ensures UsageOverwritten(before + [e], usage + UsageOf(e))
  {
    var inputs := before + [e];
    var after := usage + UsageOf(e);
    forall key: Text, i: nat | LastWriter(inputs, key, i)
      ensures key in after && after[key] == UsageOf(inputs[i])[key]
    {
      if i < |before| {
        LastWriterShrinks(before, e, key, i);
      }
    }
    forall key: Text | key in after
      ensures exists i: nat :: LastWriter(inputs, key, i)
    {
      if key in UsageOf(e) {
        assert LastWriter(inputs, key, |before|);
      } else {
        var i: nat :| LastWriter(before, key, i);
        assert LastWriter(inputs, key, i);
      }
    }
  }

  lemma LastWriterShrinks(before: seq<Input>, e: Input, key: Text, i: nat)
    requires i < |before| && LastWriter(before + [e], key, i)
    ensures LastWriter(before, key, i) && key !in UsageOf(e)
  {
    var inputs := before + [e];
    assert inputs[|before|] == e;
    assert forall j :: i <= j < |before| ==> inputs[j] == before[j];
  }

  // ----- Which runs are accepted -----

  predicate GoodBlock(b: Block) { b.Block? && (b.isText ==> b.text.Text? && Encodable(b.text.text)) }

  predicate GoodBlocks(blocks: seq<Block>) { forall k :: 0 <= k < |blocks| ==> GoodBlock(blocks[k]) }

  predicate GoodMessage(m: Message) {
    && !m.id.NotText? && !m.model.NotText? && !m.stopReason.NotText? && !m.usage.WrongShape? && !m.content.WrongShape?
    && (m.content.Present? ==> GoodBlocks(m.content.value))
  }

  /** An event that is acceptable on its own; any type not named here is. */
  predicate WellFormed(e: Input) {
    && !Aborts(e)
    && (Starts(e) ==> e.0.message.Present? && GoodMessage(e.0.message.value))
    && (AddsText(e) ==> e.0.delta.Present? && (e.0.delta.value.isText ==> e.0.delta.value.text.Text? && Encodable(e.0.delta.value.text.text)))
    && (Updates(e) ==> e.0.delta.Present? && !e.0.usage.WrongShape?)
  }

  predicate WellFormedAs(p: Payload, kind: EventKind) {
    !p.Undecodable? &&
    match kind
    case MessageStart => p.message.Present? && GoodMessage(p.message.value)
    case BlockDelta => p.delta.Present? && (p.delta.value.isText ==> p.delta.value.text.Text? && Encodable(p.delta.value.text.text))
    case MessageDelta => p.delta.Present? && !p.usage.WrongShape?
    case MessageStop => true
    case Ignored => true
    case _ => false
  }

  predicate AllWellFormed(inputs: seq<Input>) { forall k :: 0 <= k < |inputs| ==> WellFormed(inputs[k]) }

  predicate StartsBefore(inputs: seq<Input>, k: int) { exists j :: 0 <= j < k && j < |inputs| && Starts(inputs[j]) }

  /** The start comes first, once. */
  predicate Ordered(inputs: seq<Input>) {
    forall k :: 0 <= k < |inputs| ==>
      && (NeedsStart(inputs[k]) ==> StartsBefore(inputs, k))
      && (Starts(inputs[k]) ==> !StartsBefore(inputs, k))
  }

  /** When a run is accepted, said of the events alone. */
  predicate Acceptable(inputs: seq<Input>) {
    AllWellFormed(inputs) && Ordered(inputs) && Agree(None, Reasons(inputs)) && Utf8Size(Content(inputs)) <= MAX_SUCCESS_RESPONSE_BYTES
  }

  lemma {:induction false} AppendBlocksIff(body: Body, blocks: seq<Block>)
    requires body.Valid()
    ensures AppendBlocks(body, blocks).1 == None <==>
            GoodBlocks(blocks) && Utf8Size(body.content + BlocksText(blocks)) <= MAX_SUCCESS_RESPONSE_BYTES
    decreases |blocks|
  {
    if blocks == [] {
      NothingAdded(body.content);
    } else {
      GoodBlocksStep(blocks);
      BlocksGrow(body.content, blocks);
      if blocks[0].Block? && blocks[0].isText {
        var r := AppendText(body, blocks[0].text);
        if r.Ok? {
          AppendBlocksIff(r.body, blocks[1..]);
        }
      } else if blocks[0].Block? {
        AppendBlocksIff(body, blocks[1..]);
      }
    }
  }

  lemma GoodBlocksStep(blocks: seq<Block>)
    requires blocks != []
    ensures GoodBlocks(blocks) <==> GoodBlock(blocks[0]) && GoodBlocks(blocks[1..])
  {
    if GoodBlock(blocks[0]) && GoodBlocks(blocks[1..]) {
      assert forall k :: 0 < k < |blocks| ==> blocks[k] == blocks[1..][k - 1];
    }
  }

  lemma BeginIff(s: MessagesState, message: Message)
    requires s.Valid()
    ensures BeginMessage(s, message).1 == None <==>
            GoodMessage(message) && Utf8Size(s.body.content + InitialText(message)) <= MAX_SUCCESS_RESPONSE_BYTES
    ensures BeginMessage(s, message).1 == None ==> Some(BeginMessage(s, message).0.finishReason) == OptionalText(message.stopReason)
  {
    if message.content.Present? {
      AppendBlocksIff(s.body, message.content.value);
    } else {
      assert s.body.content + [] == s.body.content;
    }
  }

  /** What a state must already be for an event to be accepted. */
  predicate Admits(s: MessagesState, e: Input) {
    && (NeedsStart(e) ==> s.sawStart) && (Starts(e) ==> !s.sawStart)
    && CaptureStable(s.finishReason, ReasonField(e)).Some?
    && Utf8Size(s.body.content + TextOf(e)) <= MAX_SUCCESS_RESPONSE_BYTES
  }

  predicate AdmitsAs(s: MessagesState, p: Payload, kind: EventKind) {
    && (NeedsStartAs(kind) ==> s.sawStart) && (kind.MessageStart? ==> !s.sawStart)
    && CaptureStable(s.finishReason, ReasonAs(p, kind)).Some?
    && Utf8Size(s.body.content + TextAs(p, kind)) <= MAX_SUCCESS_RESPONSE_BYTES
  }

  lemma AdmitsAsKind(s: MessagesState, e: Input)
    ensures Admits(s, e) <==> AdmitsAs(s, e.0, Kind(e))
  {
    AsKind(e);
    KindMeans(e);
  }

  predicate StepsAsSaid(s: MessagesState, p: Payload, kind: EventKind)
    requires s.Valid() && (p.Undecodable? ==> kind == Unresolved)
  {
    var (t, failure) := StepAs(s, p, kind);
    && (failure == None <==> WellFormedAs(p, kind) && AdmitsAs(s, p, kind))
    && (failure == None ==> CaptureStable(s.finishReason, ReasonAs(p, kind)) == Some(t.finishReason))
  }

  lemma StartIff(s: MessagesState, p: Payload)
    requires s.Valid() && (!s.sawStart ==> s.finishReason == None) && !p.Undecodable?
    ensures StepsAsSaid(s, p, MessageStart)
  {
    if p.message.Present? && !s.sawStart {
      BeginIff(s, p.message.value);
    }
  }

  lemma DeltaIff(s: MessagesState, p: Payload)
    requires s.Valid() && !p.Undecodable?
    ensures StepsAsSaid(s, p, BlockDelta)
  {
    if p.delta.Present? && p.delta.value.isText {
      TextDeltaIff(s, p);
    } else {
      NothingAdded(s.body.content);
    }
  }

  lemma TextDeltaIff(s: MessagesState, p: Payload)
    requires s.Valid() && !p.Undecodable? && p.delta.Present? && p.delta.value.isText
    ensures StepsAsSaid(s, p, BlockDelta)
  {
    var r := AppendText(s.body, p.delta.value.text);
    if r.Ok? {
      assert r.body.content == s.body.content + TextAs(p, BlockDelta);
    }
  }

  lemma EndIff(s: MessagesState, p: Payload)
    requires s.Valid() && !p.Undecodable?
    ensures StepsAsSaid(s, p, MessageDelta)
  {
    NothingAdded(s.body.content);
    assert TextAs(p, MessageDelta) == [];
    if s.sawStart && p.delta.Present? {
      assert ReasonAs(p, MessageDelta) == p.delta.value.stopReason;
    }
  }

  lemma OtherIff(s: MessagesState, p: Payload, kind: EventKind)
    requires s.Valid() && (p.Undecodable? ==> kind == Unresolved)
    requires !kind.MessageStart? && !kind.BlockDelta? && !kind.MessageDelta?
    ensures StepsAsSaid(s, p, kind)
  {
    NothingAdded(s.body.content);
  }

  lemma StepIff(s: MessagesState, e: Input)
    requires s.Valid() && (!s.sawStart ==> s.finishReason == None)
    ensures Step(s, e.0, e.1).1 == None <==> WellFormed(e) && Admits(s, e)
    ensures Step(s, e.0, e.1).1 == None ==> CaptureStable(s.finishReason, ReasonField(e)) == Some(Step(s, e.0, e.1).0.finishReason)
  {
    AdmitsAsKind(s, e);
    AsKind(e);
    KindMeans(e);
    match Kind(e)
    case MessageStart => StartIff(s, e.0);
    case BlockDelta => DeltaIff(s, e.0);
    case MessageDelta => EndIff(s, e.0);
    case kind => OtherIff(s, e.0, kind);
  }

  lemma AllWellFormedSnoc(before: seq<Input>, e: Input)
    ensures AllWellFormed(before + [e]) <==> AllWellFormed(before) && WellFormed(e)
  {
    var inputs := before + [e];
    assert inputs[|before|] == e && forall k :: 0 <= k < |before| ==> inputs[k] == before[k];
  }

  lemma StartsBeforeSnoc(before: seq<Input>, e: Input, k: int)
    requires k <= |before|
    ensures StartsBefore(before + [e], k) <==> StartsBefore(before, k)
    ensures StartsBefore(before + [e], |before| + 1) <==> StartsBefore(before, |before|) || Starts(e)
  {
    var inputs := before + [e];
    assert inputs[|before|] == e && forall j :: 0 <= j < |before| ==> inputs[j] == before[j];
  }

  lemma OrderedSnoc(before: seq<Input>, e: Input)
    ensures Ordered(before + [e]) <==>
            && Ordered(before)
            && (NeedsStart(e) ==> StartsBefore(before, |before|))
            && (Starts(e) ==> !StartsBefore(before, |before|))
  {
    var inputs := before + [e];
    assert inputs[|before|] == e && forall k :: 0 <= k < |before| ==> inputs[k] == before[k];
    forall k | 0 <= k <= |before|
      ensures StartsBefore(inputs, k) <==> StartsBefore(before, k)
    {
      StartsBeforeSnoc(before, e, k);
    }
  }

  lemma ContentSnoc(before: seq<Input>, e: Input)
    ensures Content(before + [e]) == Content(before) + TextOf(e)
    ensures Utf8Size(Content(before)) <= Utf8Size(Content(before + [e]))
    ensures Reasons(before + [e]) == Reasons(before) + [ReasonField(e)]
  {
    var inputs := before + [e];
    assert inputs[..|inputs|-1] == before && inputs[|inputs|-1] == e;
    Utf8SizeAppend(Content(before), TextOf(e));
  }

  /** What a run has built that decides about its next event. */
  predicate Tracks(inputs: seq<Input>, s: MessagesState) {
    && s.Valid() && s.body.content == Content(inputs)
    && (s.sawStart <==> StartsBefore(inputs, |inputs|))
    && s.finishReason == Captured(None, Reasons(inputs))
    && (!s.sawStart ==> s.finishReason == None)
  }

  lemma AcceptableSnoc(before: seq<Input>, e: Input)
    ensures Acceptable(before + [e]) ==> Acceptable(before)
  {
    AllWellFormedSnoc(before, e);
    OrderedSnoc(before, e);
    ContentSnoc(before, e);
    if Agree(None, Reasons(before) + [ReasonField(e)]) {
      AgreePrefix(Reasons(before), ReasonField(e));
    }
  }

  lemma AcceptableGrows(before: seq<Input>, e: Input, s: MessagesState)
    requires Acceptable(before) && Tracks(before, s)
    ensures Acceptable(before + [e]) <==> WellFormed(e) && Admits(s, e)
  {
    AllWellFormedSnoc(before, e);
    OrderedSnoc(before, e);
    ContentSnoc(before, e);
    AgreeSnoc(Reasons(before), ReasonField(e));
  }

  lemma TracksGrows(before: seq<Input>, e: Input, s: MessagesState, t: MessagesState)
    requires Acceptable(before) && Tracks(before, s) && Step(s, e.0, e.1) == (t, None)
    ensures Tracks(before + [e], t)
  {
    StepIff(s, e);
    StepContent(s, e);
    StepOrder(s, e);
    ContentSnoc(before, e);
    StartsBeforeSnoc(before, e, |before|);
    AgreeSnoc(Reasons(before), ReasonField(e));
  }

  /** A run is accepted exactly when its events are acceptable; and its stop reason is the one they agree on. */
  lemma {:induction false} RunIff(inputs: seq<Input>)
    ensures Run(inputs).Ran? <==> Acceptable(inputs)
    ensures Run(inputs).Ran? ==> Tracks(inputs, Run(inputs).state)
  {
    if inputs != [] {
      var n := |inputs| - 1;
      var before, e := inputs[..n], inputs[n];
      assert before + [e] == inputs;
      RunIff(before);
      AcceptableSnoc(before, e);
      if Run(before).Ran? {
        var s := Run(before).state;
        AcceptableGrows(before, e, s);
        StepIff(s, e);
        var (t, failure) := Step(s, e.0, e.1);
        if failure == None {
          TracksGrows(before, e, s, t);
        }
      }
    }
  }

  // ----- Refusals -----

  /** What a provider's own error is reported as. */
  function Reported(codes: set<string>): Failure {
    if "rate_limit_error" in codes then ProviderError("rate_limited", true)
    else if "api_error" in codes || "overloaded_error" in codes || "timeout_error" in codes then ProviderError("provider_5xx", true)
    else ProviderError("provider_stream_error", false)
  }

  lemma ReportedMeans(codes: set<string>)
    ensures ErrorOf(codes, RATE_LIMIT_CODES, SERVER_CODES) == Reported(codes)
  {
    assert codes * RATE_LIMIT_CODES != {} <==> exists c :: c in codes && c in RATE_LIMIT_CODES by {
      assert forall c :: c in codes * RATE_LIMIT_CODES <==> c in codes && c in RATE_LIMIT_CODES;
    }
    assert codes * SERVER_CODES != {} <==> exists c :: c in codes && c in SERVER_CODES by {
      assert forall c :: c in codes * SERVER_CODES <==> c in codes && c in SERVER_CODES;
    }
  }

  /** How many of the initial blocks are sound, from the first on. */
  function SoundBlocks(blocks: seq<Block>): (n: nat)
    ensures n <= |blocks|
  {
    if blocks == [] || !GoodBlock(blocks[0]) then 0 else 1 + SoundBlocks(blocks[1..])
  }

  /** Some sound block, with no unsound one before it, takes the text past the limit. */
  predicate Overflows(content: Text, blocks: seq<Block>) {
    Utf8Size(content + BlocksText(blocks[..SoundBlocks(blocks)])) > MAX_SUCCESS_RESPONSE_BYTES
  }

  /** The members of a message that are read before its content. */
  predicate GoodHeader(m: Message) {
    !m.id.NotText? && !m.model.NotText? && !m.stopReason.NotText? && !m.usage.WrongShape?
  }

  /** Why an event is refused, said of its declared type and of the state it meets. */
  function Refusal(s: MessagesState, e: Input): Failure {
    if Declares(e, "error") then Reported(e.0.codes)
    else if Starts(e) && !s.sawStart && e.0.message.Present? && GoodHeader(e.0.message.value)
            && e.0.message.value.content.Present? && Overflows(s.body.content, e.0.message.value.content.value)
    then TooLarge(MAX_SUCCESS_RESPONSE_BYTES)
    else if AddsText(e) && s.sawStart && WellFormed(e) then TooLarge(MAX_SUCCESS_RESPONSE_BYTES)
    else InvalidStream
  }

  lemma SoundStep(content: Text, blocks: seq<Block>)
    requires blocks != [] && GoodBlock(blocks[0])
    ensures Overflows(content, blocks) <==> Overflows(content + BlockText(blocks[0]), blocks[1..])
  {
    var n := SoundBlocks(blocks);
    assert blocks[..n][1..] == blocks[1..][..n - 1];
    BlocksGrow(content, blocks[..n]);
  }

  lemma {:induction false} BlocksRefuse(body: Body, blocks: seq<Block>)
    requires body.Valid()
    ensures var failure := AppendBlocks(body, blocks).1;
            failure == None || failure == Some(if Overflows(body.content, blocks) then TooLarge(MAX_SUCCESS_RESPONSE_BYTES) else InvalidStream)
    decreases |blocks|
  {
    if blocks != [] {
      NothingAdded(body.content);
      if GoodBlock(blocks[0]) {
        SoundStep(body.content, blocks);
        if blocks[0].isText {
          FirstOverflow(body.content, blocks);
          var r := AppendText(body, blocks[0].text);
          if r.Ok? {
            BlocksRefuse(r.body, blocks[1..]);
          }
        } else {
          BlocksRefuse(body, blocks[1..]);
        }
      }
    }
  }

  /** A first block that is too much makes the whole too much. */
  lemma FirstOverflow(content: Text, blocks: seq<Block>)
    requires blocks != [] && GoodBlock(blocks[0])
    ensures Utf8Size(content + BlockText(blocks[0])) > MAX_SUCCESS_RESPONSE_BYTES ==> Overflows(content, blocks)
  {
    BlocksGrow(content, blocks[..SoundBlocks(blocks)]);
  }

  lemma StartRefuses(s: MessagesState, e: Input)
    requires s.Valid() && Starts(e) && !s.sawStart && e.0.message.Present?
    ensures var failure := BeginMessage(s, e.0.message.value).1; failure == None || failure == Some(Refusal(s, e))
  {
    NamesDiffer();
    if e.0.message.value.content.Present? {
      BlocksRefuse(s.body, e.0.message.value.content.value);
    }
  }

  lemma StepRefuses(s: MessagesState, e: Input)
    requires s.Valid() && Step(s, e.0, e.1).1.Some?
    ensures Step(s, e.0, e.1).1 == Some(Refusal(s, e))
  {
    KindMeans(e);
    NamesDiffer();
    match Kind(e)
    case ErrorEvent => ReportedMeans(e.0.codes);
    case MessageStart =>
      if !s.sawStart && e.0.message.Present? {
        StartRefuses(s, e);
      }
    case _ =>
  }

  /** The first event that is not acceptable ends the run, with the failure its declared type calls for. */
  lemma RunStops(inputs: seq<Input>, last: Input)
    requires Acceptable(inputs) && !Acceptable(inputs + [last])
    ensures Run(inputs).Ran? && Run(inputs + [last]) == Stopped(Refusal(Run(inputs).state, last))
  {
    var all := inputs + [last];
    assert all[..|inputs|] == inputs && all[|inputs|] == last;
    RunIff(inputs);
    RunIff(all);
    StepRefuses(Run(inputs).state, last);
  }

  lemma {:induction false} StoppedStays(inputs: seq<Input>, more: seq<Input>)
    requires Run(inputs).Stopped?
    ensures Run(inputs + more) == Run(inputs)
    decreases |more|
  {
    if more == [] {
      assert inputs + more == inputs;
    } else {
      var all := inputs + more;
      assert all[..|all|-1] == inputs + more[..|more|-1];
      StoppedStays(inputs, more[..|more|-1]);
    }
  }

  // ----- From bytes to a result -----

  type ValidState = s: MessagesState | s.Valid() witness EMPTY

  /** The accumulator as a protocol, for any decoders of payloads and of event names. */
  function Messages(decode: bytes -> Payload, names: bytes -> Option<string>): (p: Protocol<ValidState>)
    ensures p.Valid()
  {
    var start: ValidState := EMPTY;
    Protocol(true, start, (s: ValidState, payload: bytes, name: Option<string>) => ConsumePayload(s, decode(payload), name),
             (s: ValidState) => s.done, names)
  }

  function ConsumePayload(s: ValidState, payload: Payload, name: Option<string>): Consumed<ValidState> {
    var (next, failure) := Step(s, payload, name);
    var kept: ValidState := next;
    if failure.Some? then Refused(failure.value) else Accepted(kept)
  }

  /** What the accumulator is given for an event; an undecodable name is refused like an undecodable payload. */
  function InputOf(decode: bytes -> Payload, names: bytes -> Option<string>, e: Event): Input {
    match NameOf(Messages(decode, names), e)
    case None => (Undecodable, None)
    case Some(name) => (decode(Join(e.data)), name)
  }

  function Inputs(decode: bytes -> Payload, names: bytes -> Option<string>, events: seq<Event>): (r: seq<Input>)
    ensures |r| == |events| && forall k :: 0 <= k < |events| ==> r[k] == InputOf(decode, names, events[k])
  {
    if events == [] then [] else [InputOf(decode, names, events[0])] + Inputs(decode, names, events[1..])
  }

  lemma OneDelivery(decode: bytes -> Payload, names: bytes -> Option<string>, s: ValidState, events: seq<Event>)
    requires events != []
    ensures var e := InputOf(decode, names, events[0]);
            var (next, failure) := Step(s, e.0, e.1);
            Deliver(Messages(decode, names), s, events) ==
            if failure.Some? then Failed(failure.value)
            else if next.done then Done(next)
            else Deliver(Messages(decode, names), next, events[1..])
  {
    var p := Messages(decode, names);
    var name := NameOf(p, events[0]);
    if name.Some? {
      assert p.consume(s, Join(events[0].data), name.value) == ConsumePayload(s, decode(Join(events[0].data)), name.value);
    }
  }

  /** The run continued from a state, event by event. */
  function RunFrom(s: MessagesState, inputs: seq<Input>): (r: RunResult)
    requires s.Valid()
    ensures r.Ran? ==> r.state.Valid()
    decreases |inputs|
  {
    if inputs == [] then Ran(s)
    else
      var (next, failure) := Step(s, inputs[0].0, inputs[0].1);
      if failure.Some? then Stopped(failure.value) else RunFrom(next, inputs[1..])
  }

  function Extend(s: MessagesState, last: Input): RunResult
    requires s.Valid()
  {
    var (next, failure) := Step(s, last.0, last.1);
    if failure.Some? then Stopped(failure.value) else Ran(next)
  }

  lemma {:induction false} RunFromSnoc(s: MessagesState, inputs: seq<Input>, last: Input)
    requires s.Valid()
    ensures RunFrom(s, inputs + [last]) ==
            match RunFrom(s, inputs)
            case Stopped(failure) => Stopped(failure)
            case Ran(t) => Extend(t, last)
    decreases |inputs|
  {
    var all := inputs + [last];
    if inputs == [] {
      assert all[1..] == [];
    } else {
      assert all[0] == inputs[0] && all[1..] == inputs[1..] + [last];
      var (next, failure) := Step(s, inputs[0].0, inputs[0].1);
      if failure == None {
        RunFromSnoc(next, inputs[1..], last);
      }
    }
  }

  lemma {:induction false} RunIsRunFrom(inputs: seq<Input>)
    ensures Run(inputs) == RunFrom(EMPTY, inputs)
  {
    if inputs != [] {
      var before, last := inputs[..|inputs|-1], inputs[|inputs|-1];
      RunIsRunFrom(before);
      RunFromSnoc(EMPTY, before, last);
      assert before + [last] == inputs;
    }
  }

  predicate NoStop(inputs: seq<Input>) { forall k :: 0 <= k < |inputs| ==> !Stops(inputs[k]) }

  lemma {:induction false} DeliverIsRun(decode: bytes -> Payload, names: bytes -> Option<string>,
                                        s: ValidState, events: seq<Event>, last: Event)
    requires !s.done && Stops(InputOf(decode, names, last))
    requires NoStop(Inputs(decode, names, events))
    ensures Deliver(Messages(decode, names), s, events + [last]) ==
            match RunFrom(s, Inputs(decode, names, events) + [InputOf(decode, names, last)])
            case Ran(t) => Done(t)
            case Stopped(failure) => Failed(failure)
    decreases |events|
  {
    var all := events + [last];
    var inputs, end := Inputs(decode, names, events), InputOf(decode, names, last);
    OneDelivery(decode, names, s, all);
    RunFromSnoc(s, inputs, end);
    if events == [] {
      assert all[0] == last && inputs == [];
      if Step(s, end.0, end.1).1 == None {
        StepOrder(s, end);
      }
    } else {
      assert all[0] == events[0] && all[1..] == events[1..] + [last];
      var (next, failure) := Step(s, inputs[0].0, inputs[0].1);
      if failure == None {
        StepOrder(s, inputs[0]);
        DeliverIsRun(decode, names, next, events[1..], last);
        RunFromSnoc(next, inputs[1..], end);
      }
    }
  }

  /**
   * End to end: a stream of events up to message_stop, however it is written and in
   * whatever chunks it arrives, is accepted exactly when its events are acceptable, and
   * has built what they say.
   */
  lemma MessagesStreamDelivers(decode: bytes -> Payload, names: bytes -> Option<string>, events: seq<Event>, last: Event,
                               script: Script, chunks: seq<bytes>)
    requires Stops(InputOf(decode, names, last)) && NoStop(Inputs(decode, names, events))
    requires Written(script) && EventsOf(Messages(decode, names), script.groups, script.pending) == events + [last]
    requires Concat(chunks) == Bytes(script) && |Bytes(script)| <= MAX_STREAM_WIRE_BYTES
    ensures var p := Messages(decode, names);
            var inputs := Inputs(decode, names, events) + [InputOf(decode, names, last)];
            var outcome := Consume(p, None, chunks);
            if CutAtHeldCr(p, chunks) then outcome == Failed(TooLarge(MAX_STREAM_EVENT_BYTES))
            else
              && (outcome.Done? <==> Acceptable(inputs))
              && (outcome.Done? ==> Built(inputs, outcome.acc) && outcome.acc.finishReason == Captured(None, Reasons(inputs)))
  {
    var inputs := Inputs(decode, names, events) + [InputOf(decode, names, last)];
    FormsRoundTrip(Messages(decode, names), script, chunks);
    DeliverIsRun(decode, names, EMPTY, events, last);
    RunIsRunFrom(inputs);
    RunIff(inputs);
    if Run(inputs).Ran? {
      RunMeaning(inputs);
    }
  }
}
