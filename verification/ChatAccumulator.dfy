/** The Chat Completions accumulator: one normalized result from many events. */
module ChatAccumulator {
  import opened Prelude
  import opened SseFraming
  import opened SseLines
  import opened SseChunks
  import opened SseRoundTrip
  import opened SseForms
  import opened StreamFields

  datatype Choice = NotAMapping | Choice(indexIsZero: bool, finishReason: Field, delta: Shape<Field>)

  /** One decoded `data` payload. */
  datatype ChatEvent =
    | BadUtf8
    | DoneMarker
    | BadJson
    | NotAnObject
    | Chunk(hasError: bool, id: Field, model: Field, fingerprint: Field,
            usage: Shape<Usage>, choices: Shape<seq<Choice>>)

  datatype ChatState = ChatState(
    body: Body,
    finishReason: Option<Text>,
    usage: Option<Usage>,
    requestId: Option<Text>,
    model: Option<Text>,
    fingerprint: Option<Text>,
    done: bool)
  {
    predicate Valid() { body.Valid() }
  }

  const EMPTY := ChatState(Body([], 0), None, None, None, None, None, false)

  /** The first choice with index zero, or else the first choice. */
  function SelectChoice(choices: seq<Choice>): Choice
    requires choices != []
  {
    IndexZero(choices, choices[0])
  }

  function IndexZero(choices: seq<Choice>, default: Choice): Choice {
    if choices == [] then default
    else if choices[0].Choice? && choices[0].indexIsZero then choices[0]
    else IndexZero(choices[1..], default)
  }

  predicate Zero(c: Choice) { c.Choice? && c.indexIsZero }

  /** The choice that counts: the first one of index zero, or the first of all when there is none. */
  lemma SelectedMeans(choices: seq<Choice>)
    requires choices != []
    ensures forall k :: 0 <= k < |choices| && Zero(choices[k]) && (forall j :: 0 <= j < k ==> !Zero(choices[j])) ==>
              SelectChoice(choices) == choices[k]
    ensures (forall k :: 0 <= k < |choices| ==> !Zero(choices[k])) ==> SelectChoice(choices) == choices[0]
  {
    IndexZeroMeans(choices, choices[0]);
  }

  lemma {:induction false} IndexZeroMeans(choices: seq<Choice>, default: Choice)
    ensures forall k :: 0 <= k < |choices| && Zero(choices[k]) && (forall j :: 0 <= j < k ==> !Zero(choices[j])) ==>
              IndexZero(choices, default) == choices[k]
    ensures (forall k :: 0 <= k < |choices| ==> !Zero(choices[k])) ==> IndexZero(choices, default) == default
  {
    if choices != [] && !Zero(choices[0]) {
      var rest := choices[1..];
      IndexZeroMeans(rest, default);
      forall k | 0 <= k < |choices| && Zero(choices[k]) && forall j :: 0 <= j < k ==> !Zero(choices[j])
        ensures IndexZero(choices, default) == choices[k]
      {
        assert rest[k - 1] == choices[k] && forall j :: 0 <= j < k - 1 ==> rest[j] == choices[j + 1];
      }
    }
  }

  function ApplyDelta(s: ChatState, delta: Shape<Field>): (r: (ChatState, Option<Failure>))
    requires s.Valid()
    ensures r.0.Valid() && r.0.done == s.done
  {
    match delta
    case Missing => (s, None)
    case WrongShape => (s, Some(InvalidStream))
    case Present(Absent) => (s, None)
    case Present(content) =>
      match AppendText(s.body, content)
      case Ok(body) => (s.(body := body), None)
      case Rejected(failure) => (s, Some(failure))
  }

  function ApplyChoices(s: ChatState, choices: Shape<seq<Choice>>): (r: (ChatState, Option<Failure>))
    requires s.Valid()
    ensures r.0.Valid() && r.0.done == s.done
  {
    match choices
    case Missing => (s, None)
    case WrongShape => (s, Some(InvalidStream))
    case Present(list) =>
      if list == [] then (s, None)
      else
        match SelectChoice(list)
        case NotAMapping => (s, Some(InvalidStream))
        case Choice(_, finish, delta) =>
          match CaptureStable(s.finishReason, finish)
          case None => (s, Some(InvalidStream))
          case Some(reason) => ApplyDelta(s.(finishReason := reason), delta)
  }

  /** One event: the new state, and the failure if the event is rejected part-way. */
  function Step(s: ChatState, e: ChatEvent): (r: (ChatState, Option<Failure>))
    requires s.Valid()
    ensures r.0.Valid() && r.0.done == (s.done || e.DoneMarker?)
  {
    match e
    case BadUtf8 => (s, Some(InvalidStream))
    case DoneMarker => (s.(done := true), None)
    case BadJson => (s, Some(InvalidStream))
    case NotAnObject => (s, Some(InvalidStream))
    case Chunk(hasError, id, model, fingerprint, usage, choices) =>
      if hasError then (s, Some(ProviderError("provider_stream_error", false)))
      else
        match CaptureStable(s.requestId, id)
        case None => (s, Some(InvalidStream))
        case Some(i) =>
          var s1 := s.(requestId := i);
          match CaptureStable(s.model, model)
          case None => (s1, Some(InvalidStream))
          case Some(m) =>
            var s2 := s1.(model := m);
            match CaptureStable(s.fingerprint, fingerprint)
            case None => (s2, Some(InvalidStream))
            case Some(f) =>
              var s3 := s2.(fingerprint := f);
              match usage
              case WrongShape => (s3, Some(InvalidStream))
              case Missing => ApplyChoices(s3, choices)
              case Present(u) => ApplyChoices(s3.(usage := Some(u)), choices)
  }

  /** The accumulator object, updated field by field. */
  class Accumulator {
    var body: Body
    var finishReason: Option<Text>
    var usage: Option<Usage>
    var requestId: Option<Text>
    var model: Option<Text>
    var fingerprint: Option<Text>
    var done: bool

    ghost function State(): ChatState
      reads this
    {
      ChatState(body, finishReason, usage, requestId, model, fingerprint, done)
    }

    constructor ()
      ensures State() == EMPTY
    {
      body := Body([], 0);
      finishReason, usage, requestId, model, fingerprint := None, None, None, None, None;
      done := false;
    }

    method ConsumeEvent(e: ChatEvent) returns (failure: Option<Failure>)
      requires body.Valid()
      modifies this
      ensures (State(), failure) == Step(old(State()), e)
    {
      match e {
        case BadUtf8 => return Some(InvalidStream);
        case DoneMarker => done := true; return None;
        case BadJson => return Some(InvalidStream);
        case NotAnObject => return Some(InvalidStream);
        case Chunk(_, _, _, _, _, _) =>
      }
      if e.hasError {
        return Some(ProviderError("provider_stream_error", false));
      }
      var captured := CaptureStable(requestId, e.id);
      if captured == None { return Some(InvalidStream); }
      requestId := captured.value;
      captured := CaptureStable(model, e.model);
      if captured == None { return Some(InvalidStream); }
      model := captured.value;
      captured := CaptureStable(fingerprint, e.fingerprint);
      if captured == None { return Some(InvalidStream); }
      fingerprint := captured.value;
      if e.usage.WrongShape? { return Some(InvalidStream); }
      if e.usage.Present? { usage := Some(e.usage.value); }
      if e.choices.Missing? { return None; }
      if e.choices.WrongShape? { return Some(InvalidStream); }
      if e.choices.value == [] { return None; }
      var choice := SelectChoice(e.choices.value);
      if choice.NotAMapping? { return Some(InvalidStream); }
      captured := CaptureStable(finishReason, choice.finishReason);
      if captured == None { return Some(InvalidStream); }
      finishReason := captured.value;
      if choice.delta.Missing? { return None; }
      if choice.delta.WrongShape? { return Some(InvalidStream); }
      if choice.delta.value.Absent? { return None; }
      var appended := AppendText(body, choice.delta.value);
      if appended.Rejected? { return Some(appended.failure); }
      body := appended.body;
      failure := None;
    }
  }

  // ----- Runs -----

  datatype RunResult = Ran(state: ChatState) | Stopped(failure: Failure)

  function Run(s: ChatState, events: seq<ChatEvent>): (r: RunResult)
    requires s.Valid()
    ensures r.Ran? ==> r.state.Valid()
    decreases |events|
  {
    if events == [] then Ran(s)
    else
      var (next, failure) := Step(s, events[0]);
      if failure.Some? then Stopped(failure.value) else Run(next, events[1..])
  }

  function Selected(e: ChatEvent): Option<Choice> {
    if e.Chunk? && e.choices.Present? && e.choices.value != [] then Some(SelectChoice(e.choices.value)) else None
  }

  /** The text an event adds, as the stream carries it. */
  function DeltaField(e: ChatEvent): Field {
    match Selected(e)
    case Some(Choice(_, _, Present(content))) => content
    case _ => Absent
  }

  function FinishField(e: ChatEvent): Field {
    match Selected(e)
    case Some(Choice(_, finish, _)) => finish
    case _ => Absent
  }

  /** An event that is acceptable on its own. */
  predicate WellFormed(e: ChatEvent) {
    && e.Chunk? && !e.hasError && !e.usage.WrongShape? && !e.choices.WrongShape?
    && Selected(e) != Some(NotAMapping)
    && (Selected(e).Some? && Selected(e).value.Choice? ==> !Selected(e).value.delta.WrongShape?)
    && !DeltaField(e).NotText?
    && (DeltaField(e).Text? ==> Encodable(DeltaField(e).text))
  }

  function DeltaText(e: ChatEvent): Text { if DeltaField(e).Text? then DeltaField(e).text else [] }

  function Content(events: seq<ChatEvent>): Text {
    if events == [] then [] else DeltaText(events[0]) + Content(events[1..])
  }

  function UsageAfter(existing: Option<Usage>, e: ChatEvent): Option<Usage> {
    if e.Chunk? && e.usage.Present? then Some(e.usage.value) else existing
  }

  function LastUsage(existing: Option<Usage>, events: seq<ChatEvent>): Option<Usage>
    decreases |events|
  {
    if events == [] then existing
    else
      LastUsage(UsageAfter(existing, events[0]), events[1..])
  }

  function Ids(events: seq<ChatEvent>): seq<Field> {
    if events == [] then [] else [if events[0].Chunk? then events[0].id else Absent] + Ids(events[1..])
  }

  function Models(events: seq<ChatEvent>): seq<Field> {
    if events == [] then [] else [if events[0].Chunk? then events[0].model else Absent] + Models(events[1..])
  }

  function Fingerprints(events: seq<ChatEvent>): seq<Field> {
    if events == [] then [] else [if events[0].Chunk? then events[0].fingerprint else Absent] + Fingerprints(events[1..])
  }

  function Finishes(events: seq<ChatEvent>): seq<Field> {
    if events == [] then [] else [FinishField(events[0])] + Finishes(events[1..])
  }

  predicate AllWellFormed(events: seq<ChatEvent>) { forall k :: 0 <= k < |events| ==> WellFormed(events[k]) }

  /** When a run of content events is accepted, said of the events alone. */
  predicate Acceptable(s: ChatState, events: seq<ChatEvent>) {
    && AllWellFormed(events)
    && Agree(s.requestId, Ids(events)) && Agree(s.model, Models(events))
    && Agree(s.fingerprint, Fingerprints(events)) && Agree(s.finishReason, Finishes(events))
    && Utf8Size(s.body.content + Content(events)) <= MAX_SUCCESS_RESPONSE_BYTES
  }

  function Summary(s: ChatState, events: seq<ChatEvent>): ChatState {
    var content := s.body.content + Content(events);
    ChatState(Body(content, Utf8Size(content)), Captured(s.finishReason, Finishes(events)),
              LastUsage(s.usage, events), Captured(s.requestId, Ids(events)), Captured(s.model, Models(events)),
              Captured(s.fingerprint, Fingerprints(events)), s.done)
  }

  /** Choices and delta, said in the vocabulary of Acceptable and Summary. */
  lemma ChoicesMeaning(s: ChatState, e: ChatEvent)
    requires s.Valid() && e.Chunk? && !e.choices.WrongShape?
    ensures var (next, failure) := ApplyChoices(s, e.choices);
            var r := CaptureStable(s.finishReason, FinishField(e));
            var content := s.body.content + DeltaText(e);
            && (failure == None <==>
                && Selected(e) != Some(NotAMapping)
                && (Selected(e).Some? && Selected(e).value.Choice? ==> !Selected(e).value.delta.WrongShape?)
                && !DeltaField(e).NotText?
                && (DeltaField(e).Text? ==> Encodable(DeltaField(e).text))
                && r.Some? && Utf8Size(content) <= MAX_SUCCESS_RESPONSE_BYTES)
            && (failure == None ==> next == s.(finishReason := r.value, body := Body(content, Utf8Size(content))))
  {
    assert s.body.content + [] == s.body.content;
  }

  /** What one content event makes of a state, said field by field; None when it is refused. */
  function Merge(s: ChatState, e: ChatEvent): Option<ChatState> {
    var i := CaptureStable(s.requestId, if e.Chunk? then e.id else Absent);
    var m := CaptureStable(s.model, if e.Chunk? then e.model else Absent);
    var f := CaptureStable(s.fingerprint, if e.Chunk? then e.fingerprint else Absent);
    var r := CaptureStable(s.finishReason, FinishField(e));
    var content := s.body.content + DeltaText(e);
    if WellFormed(e) && i.Some? && m.Some? && f.Some? && r.Some? && Utf8Size(content) <= MAX_SUCCESS_RESPONSE_BYTES then
      Some(ChatState(Body(content, Utf8Size(content)), r.value, UsageAfter(s.usage, e), i.value, m.value, f.value, s.done))
    else None
  }

  predicate StepsAsMerged(s: ChatState, e: ChatEvent)
    requires s.Valid()
  {
    var (next, failure) := Step(s, e);
    Merge(s, e) == if failure == None then Some(next) else None
  }

  /** The state an event's choices are applied to. */
  function Captures(s: ChatState, e: ChatEvent): (r: Option<ChatState>)
    requires e.Chunk?
    ensures s.Valid() && r.Some? ==> r.value.Valid()
  {
    var i := CaptureStable(s.requestId, e.id);
    var m := CaptureStable(s.model, e.model);
    var f := CaptureStable(s.fingerprint, e.fingerprint);
    if i.Some? && m.Some? && f.Some? then
      Some(ChatState(s.body, s.finishReason, UsageAfter(s.usage, e), i.value, m.value, f.value, s.done))
    else None
  }

  lemma StepCaptures(s: ChatState, e: ChatEvent)
    requires s.Valid() && e.Chunk? && !e.hasError && !e.usage.WrongShape?
    ensures match Captures(s, e)
            case None => Step(s, e).1.Some?
            case Some(t) => Step(s, e) == ApplyChoices(t, e.choices)
  {
  }

  lemma ContentMeaning(s: ChatState, e: ChatEvent)
    requires s.Valid() && e.Chunk? && !e.hasError && !e.usage.WrongShape?
    ensures StepsAsMerged(s, e)
  {
    StepCaptures(s, e);
    var t := Captures(s, e);
    if t.Some? && !e.choices.WrongShape? {
      ChoicesMeaning(t.value, e);
    }
  }

  lemma StepMeaning(s: ChatState, e: ChatEvent)
    requires s.Valid() && !e.DoneMarker?
    ensures StepsAsMerged(s, e)
  {
    if e.Chunk? && !e.hasError && !e.usage.WrongShape? {
      ContentMeaning(s, e);
    }
  }

  lemma ContentGrows(s: Text, events: seq<ChatEvent>)
    requires events != []
    ensures s + Content(events) == s + DeltaText(events[0]) + Content(events[1..])
    ensures Utf8Size(s + DeltaText(events[0])) <= Utf8Size(s + Content(events))
  {
    assert s + Content(events) == (s + DeltaText(events[0])) + Content(events[1..]);
    Utf8SizeAppend(s + DeltaText(events[0]), Content(events[1..]));
  }

  /**
   * A run succeeds exactly when its events are acceptable, and the state it reaches
   * is the summary: text concatenated in order, the agreed ids, the last usage.
   */
  lemma {:induction false} RunMeaning(s: ChatState, events: seq<ChatEvent>)
    requires s.Valid()
    requires forall k :: 0 <= k < |events| ==> !events[k].DoneMarker?
    ensures Run(s, events).Ran? <==> Acceptable(s, events)
    ensures Run(s, events).Ran? ==> Run(s, events).state == Summary(s, events)
    decreases |events|
  {
    if events == [] {
      assert s.body.content + Content(events) == s.body.content;
    } else {
      StepMeaning(s, events[0]);
      AcceptableStep(s, events);
      var (next, failure) := Step(s, events[0]);
      if failure == None {
        SummaryStep(s, events);
        RunMeaning(next, events[1..]);
      }
    }
  }

  lemma AllWellFormedStep(events: seq<ChatEvent>)
    requires events != []
    ensures AllWellFormed(events) <==> WellFormed(events[0]) && AllWellFormed(events[1..])
  {
    if WellFormed(events[0]) && AllWellFormed(events[1..]) {
      assert forall k :: 0 < k < |events| ==> events[k] == events[1..][k - 1];
    }
  }

  lemma AcceptableStep(s: ChatState, events: seq<ChatEvent>)
    requires events != []
    ensures match Merge(s, events[0])
            case None => !Acceptable(s, events)
            case Some(next) => Acceptable(next, events[1..]) <==> Acceptable(s, events)
  {
    AllWellFormedStep(events);
    ContentGrows(s.body.content, events);
    FieldsStep(s, events);
  }

  lemma SummaryStep(s: ChatState, events: seq<ChatEvent>)
    requires events != [] && Merge(s, events[0]).Some?
    ensures Summary(Merge(s, events[0]).value, events[1..]) == Summary(s, events)
  {
    ContentGrows(s.body.content, events);
    FieldsStep(s, events);
  }

  lemma FieldsStep(s: ChatState, events: seq<ChatEvent>)
    requires events != []
    ensures Ids(events)[1..] == Ids(events[1..]) && Models(events)[1..] == Models(events[1..])
    ensures Fingerprints(events)[1..] == Fingerprints(events[1..]) && Finishes(events)[1..] == Finishes(events[1..])
    ensures var e := events[0];
            var i := CaptureStable(s.requestId, if e.Chunk? then e.id else Absent);
            var m := CaptureStable(s.model, if e.Chunk? then e.model else Absent);
            var f := CaptureStable(s.fingerprint, if e.Chunk? then e.fingerprint else Absent);
            var r := CaptureStable(s.finishReason, FinishField(e));
            && (Agree(s.requestId, Ids(events)) <==> i.Some? && Agree(i.value, Ids(events[1..])))
            && (Agree(s.model, Models(events)) <==> m.Some? && Agree(m.value, Models(events[1..])))
            && (Agree(s.fingerprint, Fingerprints(events)) <==> f.Some? && Agree(f.value, Fingerprints(events[1..])))
            && (Agree(s.finishReason, Finishes(events)) <==> r.Some? && Agree(r.value, Finishes(events[1..])))
            && (i.Some? ==> Captured(s.requestId, Ids(events)) == Captured(i.value, Ids(events[1..])))
            && (m.Some? ==> Captured(s.model, Models(events)) == Captured(m.value, Models(events[1..])))
            && (f.Some? ==> Captured(s.fingerprint, Fingerprints(events)) == Captured(f.value, Fingerprints(events[1..])))
            && (r.Some? ==> Captured(s.finishReason, Finishes(events)) == Captured(r.value, Finishes(events[1..])))
  {
    AgreeStep(s.requestId, Ids(events));
    AgreeStep(s.model, Models(events));
    AgreeStep(s.fingerprint, Fingerprints(events));
    AgreeStep(s.finishReason, Finishes(events));
  }

  // ----- Refusals -----

  /** A member that may be captured beside what was captured before. */
  predicate Compatible(existing: Option<Text>, field: Field) {
    !field.NotText? && (field.Text? && existing.Some? ==> field.text == existing.value)
  }

  /** Why an event is refused after what came before. */
  function Refusal(s: ChatState, e: ChatEvent): Failure {
    if e.Chunk? && e.hasError then ProviderError("provider_stream_error", false)
    else if WellFormed(e) && Compatible(s.requestId, e.id) && Compatible(s.model, e.model)
            && Compatible(s.fingerprint, e.fingerprint) && Compatible(s.finishReason, FinishField(e))
    then TooLarge(MAX_SUCCESS_RESPONSE_BYTES)
    else InvalidStream
  }

  lemma ChoicesRefuse(s: ChatState, e: ChatEvent)
    requires s.Valid() && e.Chunk? && ApplyChoices(s, e.choices).1.Some?
    ensures ApplyChoices(s, e.choices).1 ==
            Some(if !e.choices.WrongShape? && Selected(e) != Some(NotAMapping)
                    && (Selected(e).Some? && Selected(e).value.Choice? ==> !Selected(e).value.delta.WrongShape?)
                    && DeltaField(e).Text? && Encodable(DeltaField(e).text) && Compatible(s.finishReason, FinishField(e))
                 then TooLarge(MAX_SUCCESS_RESPONSE_BYTES) else InvalidStream)
  {
  }

  lemma StepRefuses(s: ChatState, e: ChatEvent)
    requires s.Valid() && Step(s, e).1.Some?
    ensures Step(s, e).1 == Some(Refusal(s, e))
  {
    if e.Chunk? && !e.hasError && !e.usage.WrongShape? {
      StepCaptures(s, e);
      var t := Captures(s, e);
      if t.Some? {
        ChoicesRefuse(t.value, e);
      } else {
        CaptureRefuses(s, e);
      }
    }
  }

  lemma CaptureRefuses(s: ChatState, e: ChatEvent)
    requires s.Valid() && e.Chunk? && !e.hasError && !e.usage.WrongShape? && Captures(s, e) == None
    ensures Step(s, e).1 == Some(InvalidStream)
  {
  }

  lemma {:induction false} RunSnoc(s: ChatState, events: seq<ChatEvent>, last: ChatEvent)
    requires s.Valid()
    ensures Run(s, events + [last]) ==
            match Run(s, events)
            case Stopped(failure) => Stopped(failure)
            case Ran(t) => Extend(t, last)
    decreases |events|
  {
    var all := events + [last];
    if events == [] {
      assert all[1..] == [];
    } else {
      assert all[0] == events[0] && all[1..] == events[1..] + [last];
      var (next, failure) := Step(s, events[0]);
      if failure == None {
        RunSnoc(next, events[1..], last);
      }
    }
  }

  /** One more event. */
  function Extend(s: ChatState, last: ChatEvent): RunResult
    requires s.Valid()
  {
    var (next, failure) := Step(s, last);
    if failure.Some? then Stopped(failure.value) else Ran(next)
  }

  /** The first event that is not acceptable ends the run, with the failure it calls for. */
  lemma RunStops(events: seq<ChatEvent>, last: ChatEvent)
    requires last != DoneMarker && forall k :: 0 <= k < |events| ==> events[k] != DoneMarker
    requires Acceptable(EMPTY, events) && !Acceptable(EMPTY, events + [last])
    ensures Run(EMPTY, events + [last]) == Stopped(Refusal(Summary(EMPTY, events), last))
  {
    RunMeaning(EMPTY, events);
    NotRun(events, last);
    RunSnoc(EMPTY, events, last);
    ExtendRefuses(Summary(EMPTY, events), last);
  }

  lemma NotRun(events: seq<ChatEvent>, last: ChatEvent)
    requires last != DoneMarker && forall k :: 0 <= k < |events| ==> events[k] != DoneMarker
    requires !Acceptable(EMPTY, events + [last])
    ensures Run(EMPTY, events + [last]).Stopped?
  {
    RunMeaning(EMPTY, events + [last]);
  }

  lemma ExtendRefuses(s: ChatState, last: ChatEvent)
    requires s.Valid() && Extend(s, last).Stopped?
    ensures Extend(s, last) == Stopped(Refusal(s, last))
  {
    StepRefuses(s, last);
  }

  lemma {:induction false} StoppedStays(s: ChatState, events: seq<ChatEvent>, more: seq<ChatEvent>)
    requires s.Valid() && Run(s, events).Stopped?
    ensures Run(s, events + more) == Run(s, events)
    decreases |events|
  {
    assert (events + more)[0] == events[0] && (events + more)[1..] == events[1..] + more;
    var (next, failure) := Step(s, events[0]);
    if failure == None {
      StoppedStays(next, events[1..], more);
    }
  }

  // ----- From bytes to a result -----

  type ValidState = s: ChatState | s.Valid() witness EMPTY

  /** The accumulator as a protocol, for any decoder of payloads. */
  function Chat(decode: bytes -> ChatEvent): (p: Protocol<ValidState>)
    ensures p.Valid()
  {
    var start: ValidState := EMPTY;
    Protocol(false, start, (s: ValidState, payload: bytes, name: Option<string>) => ConsumePayload(s, decode(payload)),
             (s: ValidState) => s.done, (name: bytes) => None)
  }

  function ConsumePayload(s: ValidState, e: ChatEvent): Consumed<ValidState> {
    var (next, failure) := Step(s, e);
    var kept: ValidState := next;
    if failure.Some? then Refused(failure.value) else Accepted(kept)
  }

  function Decoded(decode: bytes -> ChatEvent, events: seq<Event>): (r: seq<ChatEvent>)
    ensures |r| == |events|
    ensures forall k :: 0 <= k < |events| ==> r[k] == decode(Join(events[k].data))
  {
    if events == [] then [] else [decode(Join(events[0].data))] + Decoded(decode, events[1..])
  }

  lemma {:induction false} DeliverIsRun(decode: bytes -> ChatEvent, s: ValidState, events: seq<Event>, last: Event)
    requires !s.done && decode(Join(last.data)) == DoneMarker
    requires forall k :: 0 <= k < |events| ==> decode(Join(events[k].data)) != DoneMarker
    ensures Deliver(Chat(decode), s, events + [last]) ==
            match Run(s, Decoded(decode, events))
            case Ran(t) => Done(t.(done := true))
            case Stopped(failure) => Failed(failure)
    decreases |events|
  {
    var p := Chat(decode);
    var all := events + [last];
    assert NameOf(p, all[0]) == Some(None);
    var (next, failure) := Step(s, decode(Join(all[0].data)));
    assert p.consume(s, Join(all[0].data), None) == if failure.Some? then Refused(failure.value) else Accepted(next);
    if events == [] {
      assert all == [last];
    } else {
      assert all[0] == events[0] && all[1..] == events[1..] + [last];
      if failure == None {
        DeliverIsRun(decode, next, events[1..], last);
      }
    }
  }

  /**
   * End to end: a stream of events and the end marker, however it is written and in
   * whatever chunks it arrives, is accepted exactly when its events are acceptable, and
   * yields their summary.
   */
  lemma ChatStreamDelivers(decode: bytes -> ChatEvent, events: seq<Event>, last: Event, script: Script, chunks: seq<bytes>)
    requires decode(Join(last.data)) == DoneMarker
    requires forall k :: 0 <= k < |events| ==> decode(Join(events[k].data)) != DoneMarker
    requires Written(script) && EventsOf(Chat(decode), script.groups, script.pending) == events + [last]
    requires Concat(chunks) == Bytes(script) && |Bytes(script)| <= MAX_STREAM_WIRE_BYTES
    ensures var outcome := Consume(Chat(decode), None, chunks);
            if CutAtHeldCr(Chat(decode), chunks) then outcome == Failed(TooLarge(MAX_STREAM_EVENT_BYTES))
            else
              && (outcome.Done? <==> Acceptable(EMPTY, Decoded(decode, events)))
              && (outcome.Done? ==> outcome.acc == Summary(EMPTY, Decoded(decode, events)).(done := true))
  {
    FormsRoundTrip(Chat(decode), script, chunks);
    DeliverMeaning(decode, events, last);
  }

  lemma DeliverMeaning(decode: bytes -> ChatEvent, events: seq<Event>, last: Event)
    requires forall k :: 0 <= k < |events| ==> decode(Join(events[k].data)) != DoneMarker
    requires decode(Join(last.data)) == DoneMarker
    ensures var outcome := Deliver(Chat(decode), EMPTY, events + [last]);
            && (outcome.Done? <==> Acceptable(EMPTY, Decoded(decode, events)))
            && (outcome.Done? ==> outcome.acc == Summary(EMPTY, Decoded(decode, events)).(done := true))
  {
    DeliverIsRun(decode, EMPTY, events, last);
    RunMeaning(EMPTY, Decoded(decode, events));
  }
}
