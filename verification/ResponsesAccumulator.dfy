/** The OpenAI Responses accumulator. */
module ResponsesAccumulator {
  import opened Prelude
  import opened SseFraming
  import opened SseLines
  import opened SseChunks
  import opened SseRoundTrip
  import opened SseForms
  import opened StreamFields

  const RATE_LIMIT_CODES: set<string> := {"rate_limit", "rate_limit_error", "rate_limit_exceeded"}
  const SERVER_CODES: set<string> := {"server_error"}

  datatype EventKind = Unresolved | ErrorEvent | FailedEvent | IncompleteEvent | TextDelta | Created | InProgress | Completed | Ignored

  datatype OutputBlock = BlockNotAMapping | OutputBlock(isText: bool, text: Field)

  datatype OutputItem = ItemNotAMapping | TextItem(text: Field) | MessageItem(content: Shape<seq<OutputBlock>>) | OtherItem

  datatype Status = NoStatus | StatusCompleted | StatusOther

  datatype Response = Response(id: Field, model: Field, usage: Shape<Usage>, status: Status, output: Shape<seq<OutputItem>>)

  /** A decoded payload; `maxOutputTokens` says that the failure detail names the output budget. */
  datatype Payload =
    | Undecodable
    | Payload(bodyType: TypeField, codes: set<string>, maxOutputTokens: bool, delta: Field, response: Shape<Response>)

  datatype ResponsesState = ResponsesState(
    body: Body,
    usage: Option<Usage>,
    requestId: Option<Text>,
    model: Option<Text>,
    completed: bool)
  {
    predicate Valid() { body.Valid() }
  }

  const EMPTY := ResponsesState(Body([], 0), None, None, None, false)

  function KindOf(p: Payload, name: Option<string>): EventKind {
    if p.Undecodable? then Unresolved
    else
      match ResolveType(name, p.bodyType)
      case None => Unresolved
      case Some(t) =>
        if t == "error" then ErrorEvent
        else if t == "response.failed" then FailedEvent
        else if t == "response.incomplete" then IncompleteEvent
        else if t == "response.output_text.delta" then TextDelta
        else if t == "response.created" then Created
        else if t == "response.in_progress" then InProgress
        else if t == "response.completed" then Completed
        else Ignored
  }

  function CollectBlocks(blocks: seq<OutputBlock>): Option<Text> {
    if blocks == [] then Some([])
    else if blocks[0].BlockNotAMapping? || (blocks[0].isText && !blocks[0].text.Text?) then None
    else
      match CollectBlocks(blocks[1..])
      case None => None
      case Some(tail) => Some((if blocks[0].isText then blocks[0].text.text else []) + tail)
  }

  function ItemText(item: OutputItem): Option<Text> {
    match item
    case ItemNotAMapping => None
    case TextItem(text) => if text.Text? then Some(text.text) else None
    case MessageItem(content) => if content.Present? then CollectBlocks(content.value) else None
    case OtherItem => Some([])
  }

  /** All output text of a completed response, or None when its output is malformed. */
  function CollectOutput(items: seq<OutputItem>): Option<Text> {
    if items == [] then Some([])
    else
      match (ItemText(items[0]), CollectOutput(items[1..]))
      case (Some(head), Some(tail)) => Some(head + tail)
      case (_, _) => None
  }

  function CaptureFrom(s: ResponsesState, r: Response): (t: (ResponsesState, Option<Failure>))
    ensures t.0.body == s.body && t.0.completed == s.completed
  {
    match CaptureStable(s.requestId, r.id)
    case None => (s, Some(InvalidStream))
    case Some(id) =>
      var s1 := s.(requestId := id);
      match CaptureStable(s.model, r.model)
      case None => (s1, Some(InvalidStream))
      case Some(model) =>
        var s2 := s1.(model := model);
        match r.usage
        case Missing => (s2, None)
        case WrongShape => (s2, Some(InvalidStream))
        case Present(u) => (s2.(usage := Some(u)), None)
  }

  /** The last event: deltas win; the final output is read only when there were none. */
  function Complete(s: ResponsesState, r: Response): (t: (ResponsesState, Option<Failure>))
    requires s.Valid()
    ensures t.0.Valid()
  {
    if r.status == StatusOther then (s, Some(ProviderError("incomplete_provider_stream", false)))
    else if s.body.content != [] then (s.(completed := true), None)
    else
      match (if r.output.Present? then CollectOutput(r.output.value) else None)
      case None => (s, Some(InvalidStream))
      case Some(text) =>
        match AppendText(s.body, Field.Text(text))
        case Rejected(failure) => (s, Some(failure))
        case Ok(body) => (s.(body := body, completed := true), None)
  }

  function Step(s: ResponsesState, p: Payload, name: Option<string>): (t: (ResponsesState, Option<Failure>))
    requires s.Valid()
    ensures t.0.Valid()
  {
    match KindOf(p, name)
    case Unresolved => (s, Some(InvalidStream))
    case ErrorEvent => (s, Some(ErrorOf(p.codes, RATE_LIMIT_CODES, SERVER_CODES)))
    case FailedEvent => (s, Some(ErrorOf(p.codes, RATE_LIMIT_CODES, SERVER_CODES)))
    case IncompleteEvent =>
      (s, Some(ProviderError(if p.maxOutputTokens then "output_truncated" else "incomplete_provider_stream", false)))
    case TextDelta =>
      (match AppendText(s.body, p.delta)
       case Ok(body) => (s.(body := body), None)
       case Rejected(failure) => (s, Some(failure)))
    case Ignored => (s, None)
    case kind =>
      if !p.response.Present? then (s, Some(InvalidStream))
      else
        var (captured, failure) := CaptureFrom(s, p.response.value);
        if failure.Some? || kind != Completed then (captured, failure)
        else Complete(captured, p.response.value)
  }

  class Accumulator {
    var body: Body
    var usage: Option<Usage>
    var requestId: Option<Text>
    var model: Option<Text>
    var completed: bool

    ghost function State(): ResponsesState
      reads this
    {
      ResponsesState(body, usage, requestId, model, completed)
    }

    constructor ()
      ensures State() == EMPTY
    {
      body, usage, requestId, model, completed := Body([], 0), None, None, None, false;
    }

    method CaptureResponse(r: Response) returns (failure: Option<Failure>)
      modifies this
      ensures (State(), failure) == CaptureFrom(old(State()), r)
    {
      var captured := CaptureStable(requestId, r.id);
      if captured == None { return Some(InvalidStream); }
      requestId := captured.value;
      captured := CaptureStable(model, r.model);
      if captured == None { return Some(InvalidStream); }
      model := captured.value;
      if r.usage.WrongShape? { return Some(InvalidStream); }
      if r.usage.Present? { usage := Some(r.usage.value); }
      failure := None;
    }

    method ConsumeEvent(p: Payload, name: Option<string>) returns (failure: Option<Failure>)
      requires body.Valid()
      modifies this
      ensures (State(), failure) == Step(old(State()), p, name)
    {
      var kind := KindOf(p, name);
      if kind == Unresolved { return Some(InvalidStream); }
      if kind == ErrorEvent || kind == FailedEvent {
        return Some(ErrorOf(p.codes, RATE_LIMIT_CODES, SERVER_CODES));
      }
      if kind == IncompleteEvent {
        return Some(ProviderError(if p.maxOutputTokens then "output_truncated" else "incomplete_provider_stream", false));
      }
      if kind == TextDelta {
        var appended := AppendText(body, p.delta);
        if appended.Rejected? { return Some(appended.failure); }
        body := appended.body;
        return None;
      }
      if kind == Ignored { return None; }
      if !p.response.Present? { return Some(InvalidStream); }
      var response := p.response.value;
      failure := CaptureResponse(response);
      if failure != None || kind != Completed { return; }
      if response.status == StatusOther {
        return Some(ProviderError("incomplete_provider_stream", false));
      }
      if body.content == [] {
        var text := if response.output.Present? then CollectOutput(response.output.value) else None;
        if text == None { return Some(InvalidStream); }
        var appended := AppendText(body, Field.Text(text.value));
        if appended.Rejected? { return Some(appended.failure); }
        body := appended.body;
      }
      completed := true;
    }
  }

  // ----- Runs -----

  type Input = (Payload, Option<string>)

  datatype RunResult = Ran(state: ResponsesState) | Stopped(failure: Failure)

  /** Events until the first failure or completion, which must be the last event. */
  function Run(s: ResponsesState, inputs: seq<Input>): (r: RunResult)
    requires s.Valid()
    ensures r.Ran? ==> r.state.Valid()
    decreases |inputs|
  {
    if inputs == [] then Ran(s)
    else
      var (next, failure) := Step(s, inputs[0].0, inputs[0].1);
      if failure.Some? then Stopped(failure.value) else Run(next, inputs[1..])
  }

  // What events are is said of the type they declare, by name.

  function Declared(e: Input): Option<string> { if e.0.Undecodable? then None else ResolveType(e.1, e.0.bodyType) }

  predicate Declares(e: Input, name: string) { Declared(e).Some? && Declared(e).value == name }

  predicate AddsText(e: Input) { Declares(e, "response.output_text.delta") }

  predicate Completes(e: Input) { Declares(e, "response.completed") }

  predicate DeclaresResponse(e: Input) {
    Declares(e, "response.created") || Declares(e, "response.in_progress") || Declares(e, "response.completed")
  }

  /** Events that end the run wherever they come. */
  predicate Aborts(e: Input) {
    Declared(e) == None || Declares(e, "error") || Declares(e, "response.failed") || Declares(e, "response.incomplete")
  }

  function Kind(e: Input): EventKind { KindOf(e.0, e.1) }

  /** The accumulator tells the declared types apart as it should. */
  lemma KindMeans(e: Input)
    ensures Kind(e) == TextDelta <==> AddsText(e)
    ensures Kind(e) == Completed <==> Completes(e)
    ensures Kind(e) == Created || Kind(e) == InProgress || Kind(e) == Completed <==> DeclaresResponse(e)
    ensures Kind(e) == ErrorEvent || Kind(e) == FailedEvent <==> Declares(e, "error") || Declares(e, "response.failed")
    ensures Kind(e) == IncompleteEvent <==> Declares(e, "response.incomplete")
    ensures Kind(e) == Unresolved <==> Declared(e) == None
  {
    NamesDiffer();
  }

  lemma NamesDiffer()
    ensures |"error"| == 5 && |"response.failed"| == 15 && |"response.created"| == 16 && |"response.completed"| == 18
    ensures |"response.incomplete"| == 19 && |"response.in_progress"| == 20 && |"response.output_text.delta"| == 26
  {
  }

  function DeltaText(e: Input): Text {
    if AddsText(e) && e.0.delta.Text? then e.0.delta.text else []
  }

  function Deltas(inputs: seq<Input>): Text {
    if inputs == [] then [] else DeltaText(inputs[0]) + Deltas(inputs[1..])
  }

  predicate CarriesResponse(e: Input) { DeclaresResponse(e) && e.0.response.Present? }

  function IdField(e: Input): Field { if CarriesResponse(e) then e.0.response.value.id else Absent }

  function ModelField(e: Input): Field { if CarriesResponse(e) then e.0.response.value.model else Absent }

  function Ids(inputs: seq<Input>): seq<Field> {
    if inputs == [] then [] else [IdField(inputs[0])] + Ids(inputs[1..])
  }

  function Models(inputs: seq<Input>): seq<Field> {
    if inputs == [] then [] else [ModelField(inputs[0])] + Models(inputs[1..])
  }

  function UsageAfter(usage: Option<Usage>, e: Input): Option<Usage> {
    if CarriesResponse(e) && e.0.response.value.usage.Present? then Some(e.0.response.value.usage.value) else usage
  }

  function LastUsage(usage: Option<Usage>, inputs: seq<Input>): Option<Usage>
    decreases |inputs|
  {
    if inputs == [] then usage else LastUsage(UsageAfter(usage, inputs[0]), inputs[1..])
  }

  /** An event that is acceptable on its own; any type not named here is. */
  predicate WellFormed(e: Input) {
    && !Aborts(e)
    && (AddsText(e) ==> e.0.delta.Text? && Encodable(e.0.delta.text))
    && (DeclaresResponse(e) ==> CarriesResponse(e) && !e.0.response.value.usage.WrongShape?)
    && (Completes(e) ==> e.0.response.value.status != StatusOther)
  }

  predicate AllWellFormed(inputs: seq<Input>) { forall k :: 0 <= k < |inputs| ==> WellFormed(inputs[k]) }

  predicate NoCompletion(inputs: seq<Input>) { forall k :: 0 <= k < |inputs| ==> !Completes(inputs[k]) }

  /** When a run is accepted up to completion, said of the events alone. */
  predicate Acceptable(s: ResponsesState, inputs: seq<Input>) {
    && AllWellFormed(inputs)
    && Agree(s.requestId, Ids(inputs)) && Agree(s.model, Models(inputs))
    && Utf8Size(s.body.content + Deltas(inputs)) <= MAX_SUCCESS_RESPONSE_BYTES
  }

  function Summary(s: ResponsesState, inputs: seq<Input>): ResponsesState {
    var content := s.body.content + Deltas(inputs);
    ResponsesState(Body(content, Utf8Size(content)), LastUsage(s.usage, inputs),
                   Captured(s.requestId, Ids(inputs)), Captured(s.model, Models(inputs)), s.completed)
  }

  /** What one event adds before completion is considered; None when it is refused. */
  function Merge(s: ResponsesState, e: Input): Option<ResponsesState> {
    var i := CaptureStable(s.requestId, IdField(e));
    var m := CaptureStable(s.model, ModelField(e));
    var content := s.body.content + DeltaText(e);
    if WellFormed(e) && i.Some? && m.Some? && Utf8Size(content) <= MAX_SUCCESS_RESPONSE_BYTES then
      Some(ResponsesState(Body(content, Utf8Size(content)), UsageAfter(s.usage, e), i.value, m.value, s.completed))
    else None
  }

  lemma CaptureMeaning(s: ResponsesState, r: Response)
    ensures var (t, failure) := CaptureFrom(s, r);
            var i := CaptureStable(s.requestId, r.id);
            var m := CaptureStable(s.model, r.model);
            && (failure == None <==> i.Some? && m.Some? && !r.usage.WrongShape?)
            && (failure == None ==> t == s.(requestId := i.value, model := m.value,
                                            usage := if r.usage.Present? then Some(r.usage.value) else s.usage))
  {
  }

  /** Events that are no text deltas leave the text alone. */
  lemma NoDelta(s: ResponsesState, e: Input)
    requires s.Valid() && !AddsText(e)
    ensures s.body.content + DeltaText(e) == s.body.content
    ensures Body(s.body.content + DeltaText(e), Utf8Size(s.body.content + DeltaText(e))) == s.body
  {
    NothingAdded(s.body.content);
  }

  /** Merging an event that carries a response is capturing from it. */
  lemma MergeIsCapture(s: ResponsesState, e: Input)
    requires s.Valid() && CarriesResponse(e)
    ensures var (t, failure) := CaptureFrom(s, e.0.response.value);
            Merge(s, e) == if failure == None && WellFormed(e) then Some(t) else None
    ensures CaptureFrom(s, e.0.response.value).1 == None ==> !e.0.response.value.usage.WrongShape?
  {
    KindMeans(e);
    NoDelta(s, e);
    CaptureMeaning(s, e.0.response.value);
  }

  lemma DeltaMeaning(s: ResponsesState, e: Input)
    requires s.Valid() && Kind(e) == TextDelta
    ensures var (next, failure) := Step(s, e.0, e.1);
            if failure == None then Merge(s, e) == Some(next) else Merge(s, e) == None
  {
    KindMeans(e);
  }

  lemma ResponseMeaning(s: ResponsesState, e: Input)
    requires s.Valid() && (Kind(e) == Created || Kind(e) == InProgress)
    ensures var (next, failure) := Step(s, e.0, e.1);
            if failure == None then Merge(s, e) == Some(next) else Merge(s, e) == None
  {
    KindMeans(e);
    if CarriesResponse(e) {
      MergeIsCapture(s, e);
    }
  }

  lemma StepMeaning(s: ResponsesState, e: Input)
    requires s.Valid() && !Completes(e)
    ensures var (next, failure) := Step(s, e.0, e.1);
            if failure == None then Merge(s, e) == Some(next) else Merge(s, e) == None
  {
    KindMeans(e);
    if Kind(e) == TextDelta {
      DeltaMeaning(s, e);
    } else if Kind(e) == Created || Kind(e) == InProgress {
      ResponseMeaning(s, e);
    } else {
      NoDelta(s, e);
    }
  }

  lemma DeltasGrow(before: Text, inputs: seq<Input>)
    requires inputs != []
    ensures before + Deltas(inputs) == (before + DeltaText(inputs[0])) + Deltas(inputs[1..])
    ensures Utf8Size(before + DeltaText(inputs[0])) <= Utf8Size(before + Deltas(inputs))
  {
    Pieces(before, DeltaText(inputs[0]), Deltas(inputs[1..]));
  }

  lemma FieldsStep(s: ResponsesState, inputs: seq<Input>)
    requires inputs != []
    ensures var i := CaptureStable(s.requestId, IdField(inputs[0]));
            var m := CaptureStable(s.model, ModelField(inputs[0]));
            && (Agree(s.requestId, Ids(inputs)) <==> i.Some? && Agree(i.value, Ids(inputs[1..])))
            && (Agree(s.model, Models(inputs)) <==> m.Some? && Agree(m.value, Models(inputs[1..])))
            && (i.Some? ==> Captured(s.requestId, Ids(inputs)) == Captured(i.value, Ids(inputs[1..])))
            && (m.Some? ==> Captured(s.model, Models(inputs)) == Captured(m.value, Models(inputs[1..])))
  {
    assert Ids(inputs)[1..] == Ids(inputs[1..]) && Models(inputs)[1..] == Models(inputs[1..]);
    AgreeStep(s.requestId, Ids(inputs));
    AgreeStep(s.model, Models(inputs));
  }

  lemma AllWellFormedStep(inputs: seq<Input>)
    requires inputs != []
    ensures AllWellFormed(inputs) <==> WellFormed(inputs[0]) && AllWellFormed(inputs[1..])
  {
    if WellFormed(inputs[0]) && AllWellFormed(inputs[1..]) {
      assert forall k :: 0 < k < |inputs| ==> inputs[k] == inputs[1..][k - 1];
    }
  }

  lemma AcceptableStep(s: ResponsesState, inputs: seq<Input>)
    requires inputs != []
    ensures match Merge(s, inputs[0])
            case None => !Acceptable(s, inputs)
            case Some(next) =>
              && (Acceptable(next, inputs[1..]) <==> Acceptable(s, inputs))
              && Summary(next, inputs[1..]) == Summary(s, inputs)
  {
    AllWellFormedStep(inputs);
    DeltasGrow(s.body.content, inputs);
    FieldsStep(s, inputs);
  }

  /**
   * Before completion a run succeeds exactly when its events are acceptable, and the
   * state it reaches is the summary: deltas in order with their size, agreed ids and
   * model, the last usage and never a sum.
   */
  lemma {:induction false} RunMeaning(s: ResponsesState, inputs: seq<Input>)
    requires s.Valid() && NoCompletion(inputs)
    ensures Run(s, inputs).Ran? <==> Acceptable(s, inputs)
    ensures Run(s, inputs).Ran? ==> Run(s, inputs).state == Summary(s, inputs)
    decreases |inputs|
  {
    if inputs == [] {
      NothingAdded(s.body.content);
    } else {
      StepMeaning(s, inputs[0]);
      AcceptableStep(s, inputs);
      var (next, failure) := Step(s, inputs[0].0, inputs[0].1);
      if failure == None {
        RunMeaning(next, inputs[1..]);
      }
    }
  }

  // ----- Completion -----

  predicate GoodBlock(b: OutputBlock) { b.OutputBlock? && (b.isText ==> b.text.Text?) }

  /** An output item without fault: text where there should be text, and a list of sound blocks in a message. */
  predicate GoodItem(item: OutputItem) {
    match item
    case ItemNotAMapping => false
    case TextItem(text) => text.Text?
    case MessageItem(content) => content.Present? && forall k :: 0 <= k < |content.value| ==> GoodBlock(content.value[k])
    case OtherItem => true
  }

  predicate GoodOutput(items: seq<OutputItem>) { forall k :: 0 <= k < |items| ==> GoodItem(items[k]) }

  /** The text of one block, if it is a text block. */
  function BlockPiece(b: OutputBlock): Text { if b.OutputBlock? && b.isText && b.text.Text? then b.text.text else [] }

  function BlockPieces(blocks: seq<OutputBlock>): Text {
    if blocks == [] then [] else BlockPiece(blocks[0]) + BlockPieces(blocks[1..])
  }

  function ItemPiece(item: OutputItem): Text {
    if item.TextItem? && item.text.Text? then item.text.text
    else if item.MessageItem? && item.content.Present? then BlockPieces(item.content.value)
    else []
  }

  /** The text pieces of all items, in order. */
  function OutputText(items: seq<OutputItem>): Text {
    if items == [] then [] else ItemPiece(items[0]) + OutputText(items[1..])
  }

  lemma {:induction false} BlocksCollected(blocks: seq<OutputBlock>)
    ensures CollectBlocks(blocks) ==
            if forall k :: 0 <= k < |blocks| ==> GoodBlock(blocks[k]) then Some(BlockPieces(blocks)) else None
  {
    if blocks != [] {
      BlocksCollected(blocks[1..]);
      assert forall k :: 0 < k < |blocks| ==> blocks[k] == blocks[1..][k - 1];
      if CollectBlocks(blocks) == None && GoodBlock(blocks[0]) {
        var k :| 0 <= k < |blocks[1..]| && !GoodBlock(blocks[1..][k]);
        assert !GoodBlock(blocks[k + 1]);
      }
    }
  }

  lemma ItemCollected(item: OutputItem)
    ensures ItemText(item) == if GoodItem(item) then Some(ItemPiece(item)) else None
  {
    if item.MessageItem? && item.content.Present? {
      BlocksCollected(item.content.value);
    }
  }

  /** The output is read when every item is sound, and then it is all the text in it. */
  lemma {:induction false} OutputCollected(items: seq<OutputItem>)
    ensures CollectOutput(items) == if GoodOutput(items) then Some(OutputText(items)) else None
  {
    if items != [] {
      ItemCollected(items[0]);
      OutputCollected(items[1..]);
      assert forall k :: 0 < k < |items| ==> items[k] == items[1..][k - 1];
      if CollectOutput(items) == None && GoodItem(items[0]) {
        var k :| 0 <= k < |items[1..]| && !GoodItem(items[1..][k]);
        assert !GoodItem(items[k + 1]);
      }
    }
  }

  /** The text of a list of output items; None when it is missing or malformed. */
  function TextIn(output: Shape<seq<OutputItem>>): Option<Text> {
    if output.Present? && GoodOutput(output.value) then Some(OutputText(output.value)) else None
  }

  /** The text of the completed response's output. */
  function FinalText(e: Input): Option<Text> { if CarriesResponse(e) then TextIn(e.0.response.value.output) else None }

  /** The final output is good enough when it has to serve as the text. */
  predicate FinalTextFits(e: Input) {
    FinalText(e).Some? && Encodable(FinalText(e).value) && Utf8Size(FinalText(e).value) <= MAX_SUCCESS_RESPONSE_BYTES
  }

  /** What the completing event makes of a state; None when it is refused. */
  function Conclude(s: ResponsesState, last: Input): Option<ResponsesState> {
    match Merge(s, last)
    case None => None
    case Some(t) =>
      if s.body.content != [] then Some(t.(completed := true))
      else if FinalTextFits(last) then
        Some(t.(body := Body(FinalText(last).value, Utf8Size(FinalText(last).value)), completed := true))
      else None
  }

  lemma CompleteMeaning(s: ResponsesState, r: Response)
    requires s.Valid()
    ensures var (t, failure) := Complete(s, r);
            var final := TextIn(r.output);
            var fits := final.Some? && Encodable(final.value) && Utf8Size(final.value) <= MAX_SUCCESS_RESPONSE_BYTES;
            && (failure == None <==> r.status != StatusOther && (s.body.content != [] || fits))
            && (failure == None ==>
                t == s.(completed := true,
                        body := if s.body.content != [] then s.body else Body(final.value, Utf8Size(final.value))))
  {
    if s.body.content == [] && r.status != StatusOther {
      FinalMeaning(s, r);
    }
  }

  /** Without deltas the text is the final output's. */
  lemma FinalMeaning(s: ResponsesState, r: Response)
    requires s.Valid() && s.body.content == [] && r.status != StatusOther
    ensures var (t, failure) := Complete(s, r);
            var final := TextIn(r.output);
            var fits := final.Some? && Encodable(final.value) && Utf8Size(final.value) <= MAX_SUCCESS_RESPONSE_BYTES;
            && (failure == None <==> fits)
            && (failure == None ==> t == s.(completed := true, body := Body(final.value, Utf8Size(final.value))))
  {
    if r.output.Present? {
      OutputCollected(r.output.value);
    }
    var final := TextIn(r.output);
    if final.Some? {
      NothingAdded(final.value);
    }
  }

  lemma ConcludeMeaning(s: ResponsesState, last: Input)
    requires s.Valid() && Completes(last)
    ensures var (next, failure) := Step(s, last.0, last.1);
            if failure == None then Conclude(s, last) == Some(next) else Conclude(s, last) == None
  {
    KindMeans(last);
    if CarriesResponse(last) {
      MergeIsCapture(s, last);
      var (t, failure) := CaptureFrom(s, last.0.response.value);
      if failure == None {
        CompleteMeaning(t, last.0.response.value);
      }
    }
  }

  /** One more event. */
  function Extend(s: ResponsesState, last: Input): RunResult
    requires s.Valid()
  {
    var (next, failure) := Step(s, last.0, last.1);
    if failure.Some? then Stopped(failure.value) else Ran(next)
  }

  lemma {:induction false} RunSnoc(s: ResponsesState, inputs: seq<Input>, last: Input)
    requires s.Valid()
    ensures Run(s, inputs + [last]) ==
            match Run(s, inputs)
            case Stopped(failure) => Stopped(failure)
            case Ran(t) => Extend(t, last)
    decreases |inputs|
  {
    var all := inputs + [last];
    if inputs == [] {
      assert all[1..] == [];
    } else {
      assert all[0] == inputs[0] && all[1..] == inputs[1..] + [last];
      var (next, failure) := Step(s, inputs[0].0, inputs[0].1);
      if failure == None {
        RunSnoc(next, inputs[1..], last);
      }
    }
  }

  lemma MergeValid(s: ResponsesState, e: Input)
    requires s.Valid()
    ensures Merge(s, e).Some? ==> Merge(s, e).value.Valid() && Merge(s, e).value.completed == s.completed
  {
    assert DeltaText(e) == [] || AddsText(e);
  }

  lemma NoEvents(s: ResponsesState)
    requires s.Valid()
    ensures Acceptable(s, []) && Summary(s, []) == s
  {
    NothingAdded(s.body.content);
  }

  /** One more event is acceptable when it can be merged into the summary, which it then is. */
  predicate MergesLast(s: ResponsesState, inputs: seq<Input>, last: Input) {
    && (Acceptable(s, inputs + [last]) <==> Acceptable(s, inputs) && Merge(Summary(s, inputs), last).Some?)
    && (Acceptable(s, inputs + [last]) ==> Summary(s, inputs + [last]) == Merge(Summary(s, inputs), last).value)
  }

  lemma {:induction false} AcceptableSnoc(s: ResponsesState, inputs: seq<Input>, last: Input)
    requires s.Valid()
    ensures MergesLast(s, inputs, last)
    decreases |inputs|
  {
    if inputs == [] {
      AcceptableOne(s, last);
      assert inputs + [last] == [last];
    } else {
      MergeValid(s, inputs[0]);
      if Merge(s, inputs[0]).Some? {
        AcceptableSnoc(Merge(s, inputs[0]).value, inputs[1..], last);
      }
      MergesCons(s, inputs, last);
    }
  }

  lemma MergesCons(s: ResponsesState, inputs: seq<Input>, last: Input)
    requires inputs != []
    requires Merge(s, inputs[0]).Some? ==> MergesLast(Merge(s, inputs[0]).value, inputs[1..], last)
    ensures MergesLast(s, inputs, last)
  {
    var all := inputs + [last];
    assert all[0] == inputs[0] && all[1..] == inputs[1..] + [last];
    AcceptableStep(s, inputs);
    AcceptableStep(s, all);
  }

  lemma AcceptableOne(s: ResponsesState, last: Input)
    requires s.Valid()
    ensures Acceptable(s, []) && Summary(s, []) == s
    ensures Acceptable(s, [last]) <==> Merge(s, last).Some?
    ensures Acceptable(s, [last]) ==> Summary(s, [last]) == Merge(s, last).value
  {
    NoEvents(s);
    AcceptableStep(s, [last]);
    MergeValid(s, last);
    assert [last][1..] == [];
    if Merge(s, last).Some? {
      NoEvents(Merge(s, last).value);
    }
  }

  /** A whole accepted stream: acceptable events, the completing one included, and some text. */
  predicate Delivers(inputs: seq<Input>, last: Input) {
    Acceptable(EMPTY, inputs + [last]) && (Deltas(inputs) != [] || FinalTextFits(last))
  }

  /** The result: the deltas, or the final output when there were none; ids, model and usage of the whole stream. */
  function Result(inputs: seq<Input>, last: Input): ResponsesState
    requires Delivers(inputs, last)
  {
    var text := if Deltas(inputs) != [] then Deltas(inputs) else FinalText(last).value;
    ResponsesState(Body(text, Utf8Size(text)), LastUsage(None, inputs + [last]),
                   Captured(None, Ids(inputs + [last])), Captured(None, Models(inputs + [last])), true)
  }

  lemma SummaryText(inputs: seq<Input>)
    ensures Summary(EMPTY, inputs).body == Body(Deltas(inputs), Utf8Size(Deltas(inputs)))
  {
    NothingAdded(Deltas(inputs));
  }

  /** Concluding after acceptable events is delivering them. */
  lemma ConcludeResult(inputs: seq<Input>, last: Input)
    requires Acceptable(EMPTY, inputs) && Completes(last) && Summary(EMPTY, inputs).Valid()
    ensures var t := Conclude(Summary(EMPTY, inputs), last);
            && (t.Some? <==> Delivers(inputs, last))
            && (Delivers(inputs, last) ==> t == Some(Result(inputs, last)))
  {
    var t := Summary(EMPTY, inputs);
    AcceptableSnoc(EMPTY, inputs, last);
    SummaryText(inputs);
    NoDelta(t, last);
  }

  /** A stream that completes is accepted exactly when it delivers, and gives that result. */
  lemma CompletedRun(inputs: seq<Input>, last: Input)
    requires NoCompletion(inputs) && Completes(last)
    ensures Run(EMPTY, inputs + [last]).Ran? <==> Delivers(inputs, last)
    ensures Delivers(inputs, last) ==> Run(EMPTY, inputs + [last]).state == Result(inputs, last)
  {
    RunSnoc(EMPTY, inputs, last);
    RunMeaning(EMPTY, inputs);
    AcceptableSnoc(EMPTY, inputs, last);
    if Acceptable(EMPTY, inputs) {
      ConcludeMeaning(Summary(EMPTY, inputs), last);
      ConcludeResult(inputs, last);
    }
  }

  // ----- Refusals -----

  /** A member that may be captured beside what was captured before. */
  predicate Compatible(existing: Option<Text>, field: Field) {
    !field.NotText? && (field.Text? && existing.Some? ==> field.text == existing.value)
  }

  /** The event's response fits what came before. */
  predicate Fits(s: ResponsesState, e: Input) {
    && CarriesResponse(e)
    && Compatible(s.requestId, e.0.response.value.id) && Compatible(s.model, e.0.response.value.model)
    && !e.0.response.value.usage.WrongShape?
  }

  /** What a provider's own error is reported as. */
  function Reported(codes: set<string>): Failure {
    if "rate_limit" in codes || "rate_limit_error" in codes || "rate_limit_exceeded" in codes then ProviderError("rate_limited", true)
    else if "server_error" in codes then ProviderError("provider_5xx", true)
    else ProviderError("provider_stream_error", false)
  }

  /** Why an event is refused, said of its declared type and of the state it meets. */
  function Refusal(s: ResponsesState, e: Input): Failure {
    if Declares(e, "error") || Declares(e, "response.failed") then Reported(e.0.codes)
    else if Declares(e, "response.incomplete") then
      ProviderError(if e.0.maxOutputTokens then "output_truncated" else "incomplete_provider_stream", false)
    else if AddsText(e) && e.0.delta.Text? && Encodable(e.0.delta.text) then TooLarge(MAX_SUCCESS_RESPONSE_BYTES)
    else if Completes(e) && Fits(s, e) && e.0.response.value.status == StatusOther then ProviderError("incomplete_provider_stream", false)
    else if Completes(e) && Fits(s, e) && FinalText(e).Some? && Encodable(FinalText(e).value) then TooLarge(MAX_SUCCESS_RESPONSE_BYTES)
    else InvalidStream
  }

  lemma ReportedMeans(codes: set<string>)
    ensures ErrorOf(codes, RATE_LIMIT_CODES, SERVER_CODES) == Reported(codes)
  {
    assert codes * RATE_LIMIT_CODES != {} <==> exists c :: c in codes && c in RATE_LIMIT_CODES by {
      assert forall c :: c in codes * RATE_LIMIT_CODES <==> c in codes && c in RATE_LIMIT_CODES;
    }
    assert codes * SERVER_CODES != {} <==> exists c :: c in codes && c in SERVER_CODES by {
      assert forall c :: c in codes * SERVER_CODES <==> c in codes && c in SERVER_CODES;
    }
  }

  lemma CaptureRefuses(s: ResponsesState, e: Input)
    requires CarriesResponse(e)
    ensures CaptureFrom(s, e.0.response.value).1 == if Fits(s, e) then None else Some(InvalidStream)
  {
  }

  lemma CompleteRefuses(s: ResponsesState, e: Input)
    requires s.Valid() && Completes(e) && Fits(s, e)
    ensures var failure := Complete(CaptureFrom(s, e.0.response.value).0, e.0.response.value).1;
            failure == None || failure == Some(Refusal(s, e))
  {
    NamesDiffer();
    if e.0.response.value.output.Present? {
      OutputCollected(e.0.response.value.output.value);
    }
  }

  lemma StepRefuses(s: ResponsesState, e: Input)
    requires s.Valid() && Step(s, e.0, e.1).1.Some?
    ensures Step(s, e.0, e.1).1 == Some(Refusal(s, e))
  {
    KindMeans(e);
    NamesDiffer();
    if Kind(e) == ErrorEvent || Kind(e) == FailedEvent {
      ReportedMeans(e.0.codes);
    } else if CarriesResponse(e) {
      CaptureRefuses(s, e);
      if Completes(e) && Fits(s, e) {
        CompleteRefuses(s, e);
      }
    }
  }

  /** The first event that is not acceptable ends the run, with the failure its declared type calls for. */
  lemma RunStops(inputs: seq<Input>, last: Input)
    requires NoCompletion(inputs) && Acceptable(EMPTY, inputs)
    requires if Completes(last) then !Delivers(inputs, last) else !Acceptable(EMPTY, inputs + [last])
    ensures Run(EMPTY, inputs + [last]) == Stopped(Refusal(Summary(EMPTY, inputs), last))
  {
    var s := Summary(EMPTY, inputs);
    RunMeaning(EMPTY, inputs);
    RunSnoc(EMPTY, inputs, last);
    AcceptableSnoc(EMPTY, inputs, last);
    if Completes(last) {
      ConcludeMeaning(s, last);
      ConcludeResult(inputs, last);
    } else {
      StepMeaning(s, last);
    }
    StepRefuses(s, last);
  }

  lemma {:induction false} StoppedStays(s: ResponsesState, inputs: seq<Input>, more: seq<Input>)
    requires s.Valid() && Run(s, inputs).Stopped?
    ensures Run(s, inputs + more) == Run(s, inputs)
    decreases |inputs|
  {
    assert (inputs + more)[0] == inputs[0] && (inputs + more)[1..] == inputs[1..] + more;
    var (next, failure) := Step(s, inputs[0].0, inputs[0].1);
    if failure == None {
      StoppedStays(next, inputs[1..], more);
    }
  }

  // ----- From bytes to a result -----

  type ValidState = s: ResponsesState | s.Valid() witness EMPTY

  /** The accumulator as a protocol, for any decoders of payloads and of event names. */
  function Responses(decode: bytes -> Payload, names: bytes -> Option<string>): (p: Protocol<ValidState>)
    ensures p.Valid()
  {
    var start: ValidState := EMPTY;
    Protocol(true, start, (s: ValidState, payload: bytes, name: Option<string>) => ConsumePayload(s, decode(payload), name),
             (s: ValidState) => s.completed, names)
  }

  function ConsumePayload(s: ValidState, payload: Payload, name: Option<string>): Consumed<ValidState> {
    var (next, failure) := Step(s, payload, name);
    var kept: ValidState := next;
    if failure.Some? then Refused(failure.value) else Accepted(kept)
  }

  /** What the accumulator is given for an event; an undecodable name is refused like an undecodable payload. */
  function InputOf(decode: bytes -> Payload, names: bytes -> Option<string>, e: Event): Input {
    match NameOf(Responses(decode, names), e)
    case None => (Undecodable, None)
    case Some(name) => (decode(Join(e.data)), name)
  }

  function Inputs(decode: bytes -> Payload, names: bytes -> Option<string>, events: seq<Event>): (r: seq<Input>)
    ensures |r| == |events| && forall k :: 0 <= k < |events| ==> r[k] == InputOf(decode, names, events[k])
  {
    if events == [] then [] else [InputOf(decode, names, events[0])] + Inputs(decode, names, events[1..])
  }

  lemma OneDelivery(decode: bytes -> Payload, names: bytes -> Option<string>, s: ValidState, events: seq<Event>)
    requires events != []
    ensures var e := InputOf(decode, names, events[0]);
            var (next, failure) := Step(s, e.0, e.1);
            Deliver(Responses(decode, names), s, events) ==
            if failure.Some? then Failed(failure.value)
            else if next.completed then Done(next)
            else Deliver(Responses(decode, names), next, events[1..])
  {
    var p := Responses(decode, names);
    var name := NameOf(p, events[0]);
    if name.Some? {
      assert p.consume(s, Join(events[0].data), name.value) == ConsumePayload(s, decode(Join(events[0].data)), name.value);
    }
  }

  lemma StepCompletes(s: ResponsesState, e: Input)
    requires s.Valid() && Step(s, e.0, e.1).1 == None
    ensures Step(s, e.0, e.1).0.completed == (s.completed || Completes(e))
  {
    if Completes(e) {
      ConcludeMeaning(s, e);
    } else {
      StepMeaning(s, e);
    }
  }

  lemma {:induction false} DeliverIsRun(decode: bytes -> Payload, names: bytes -> Option<string>,
                                        s: ValidState, events: seq<Event>, last: Event)
    requires !s.completed && Completes(InputOf(decode, names, last))
    requires NoCompletion(Inputs(decode, names, events))
    ensures Deliver(Responses(decode, names), s, events + [last]) ==
            match Run(s, Inputs(decode, names, events) + [InputOf(decode, names, last)])
            case Ran(t) => Done(t)
            case Stopped(failure) => Failed(failure)
    decreases |events|
  {
    var all := events + [last];
    var inputs, end := Inputs(decode, names, events), InputOf(decode, names, last);
    OneDelivery(decode, names, s, all);
    RunSnoc(s, inputs, end);
    if events == [] {
      assert all[0] == last && inputs == [];
      if Step(s, end.0, end.1).1 == None {
        StepCompletes(s, end);
      }
    } else {
      assert all[0] == events[0] && all[1..] == events[1..] + [last];
      var (next, failure) := Step(s, inputs[0].0, inputs[0].1);
      if failure == None {
        StepCompletes(s, inputs[0]);
        DeliverIsRun(decode, names, next, events[1..], last);
        RunSnoc(next, inputs[1..], end);
      }
    }
  }

  /**
   * End to end: a stream of events up to the completing one, however it is written and
   * in whatever chunks it arrives, is accepted exactly when it delivers, and yields its
   * result.
   */
  lemma ResponsesStreamDelivers(decode: bytes -> Payload, names: bytes -> Option<string>, events: seq<Event>, last: Event,
                                script: Script, chunks: seq<bytes>)
    requires Completes(InputOf(decode, names, last)) && NoCompletion(Inputs(decode, names, events))
    requires Written(script) && EventsOf(Responses(decode, names), script.groups, script.pending) == events + [last]
    requires Concat(chunks) == Bytes(script) && |Bytes(script)| <= MAX_STREAM_WIRE_BYTES
    ensures var p := Responses(decode, names);
            var inputs, end := Inputs(decode, names, events), InputOf(decode, names, last);
            var outcome := Consume(p, None, chunks);
            if CutAtHeldCr(p, chunks) then outcome == Failed(TooLarge(MAX_STREAM_EVENT_BYTES))
            else
              && (outcome.Done? <==> Delivers(inputs, end))
              && (outcome.Done? ==> outcome.acc == Result(inputs, end))
  {
    FormsRoundTrip(Responses(decode, names), script, chunks);
    DeliverIsRun(decode, names, EMPTY, events, last);
    CompletedRun(Inputs(decode, names, events), InputOf(decode, names, last));
  }
}
