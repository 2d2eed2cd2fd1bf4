/** Shapes of decoded JSON members, and the bounded text that accumulators build. */
module StreamFields {
  import opened Prelude
  import opened SseFraming
  import Utf8

  const MAX_SUCCESS_RESPONSE_BYTES: nat := 4 * 1024 * 1024

  type CodePoint = x: int | 0 <= x < 0x11_0000

  type Text = seq<CodePoint>

  /** A member where text (or null) is expected. */
  datatype Field = Absent | Text(text: Text) | NotText

  /** A member where an object or array (or null) is expected. */
  datatype Shape<+T> = Missing | WrongShape | Present(value: T)

  type Usage = map<Text, Text>

  predicate Encodable(s: Text) { forall k :: 0 <= k < |s| ==> !(0xD800 <= s[k] < 0xE000) }

  /** Length of the UTF-8 encoding. */
  function Utf8Size(s: Text): nat {
    if s == [] then 0
    else (if s[0] < 0x80 then 1 else if s[0] < 0x800 then 2 else if s[0] < 0x1_0000 then 3 else 4) + Utf8Size(s[1..])
  }

  function Characters(s: Text): string
    requires Encodable(s)
  {
    if s == [] then [] else [s[0] as char] + Characters(s[1..])
  }

  /** It is the number of bytes that the encoder writes. */
  lemma {:induction false} Utf8SizeIsLength(s: Text)
    requires Encodable(s)
    ensures Utf8Size(s) == |Utf8.Encode(Characters(s))|
  {
    if s != [] {
      Utf8SizeIsLength(s[1..]);
    }
  }

  lemma {:induction false} Utf8SizeAppend(a: Text, b: Text)
    ensures Utf8Size(a + b) == Utf8Size(a) + Utf8Size(b)
  {
    if a == [] {
      assert a + b == b;
    } else {
      assert (a + b)[1..] == a[1..] + b;
      Utf8SizeAppend(a[1..], b);
    }
  }

  /** Text added piece by piece: the same whole, and no prefix larger than it. */
  lemma Pieces(before: Text, first: Text, rest: Text)
    ensures before + (first + rest) == (before + first) + rest
    ensures Utf8Size(before + first) <= Utf8Size(before + (first + rest))
  {
    Regroup(before, first, rest);
    Utf8SizeAppend(before + first, rest);
  }

  lemma Regroup(a: Text, b: Text, c: Text)
    ensures a + (b + c) == (a + b) + c
  {
  }

  lemma NothingAdded(a: Text)
    ensures a + [] == a && [] + a == a
  {
  }

  /** The text so far and its size in bytes. */
  datatype Body = Body(content: Text, contentBytes: nat) {
    predicate Valid() {
      contentBytes == Utf8Size(content) && contentBytes <= MAX_SUCCESS_RESPONSE_BYTES && Encodable(content)
    }
  }

  datatype Appended = Ok(body: Body) | Rejected(failure: Failure)

  /** Append one piece of text, keeping the whole within the response limit. */
  function AppendText(body: Body, field: Field): (r: Appended)
    requires body.Valid()
    ensures r.Ok? ==> r.body.Valid()
    ensures r.Ok? <==> field.Text? && Encodable(field.text) &&
                       Utf8Size(body.content + field.text) <= MAX_SUCCESS_RESPONSE_BYTES
    ensures r.Ok? ==> r.body.content == body.content + field.text
  {
    if !field.Text? || !Encodable(field.text) then Rejected(InvalidStream)
    else
      Utf8SizeAppend(body.content, field.text);
      if body.contentBytes + Utf8Size(field.text) > MAX_SUCCESS_RESPONSE_BYTES
      then Rejected(TooLarge(MAX_SUCCESS_RESPONSE_BYTES))
      else Ok(Body(body.content + field.text, body.contentBytes + Utf8Size(field.text)))
  }

  /** Capture a text that must not change once set: None when it conflicts. */
  function CaptureStable(existing: Option<Text>, field: Field): Option<Option<Text>> {
    match field
    case Absent => Some(existing)
    case NotText => None
    case Text(t) => if existing.Some? && existing.value != t then None else Some(Some(t))
  }

  // ----- What capturing means over a run of fields -----

  function FirstText(fields: seq<Field>): Option<Text> {
    if fields == [] then None
    else if fields[0].Text? then Some(fields[0].text)
    else FirstText(fields[1..])
  }

  /** All texts agree with each other and with what was captured before. */
  predicate Agree(existing: Option<Text>, fields: seq<Field>) {
    && (forall i :: 0 <= i < |fields| ==> !fields[i].NotText?)
    && (existing.Some? ==> forall i :: 0 <= i < |fields| && fields[i].Text? ==> fields[i].text == existing.value)
    && (forall i, j :: 0 <= i < |fields| && 0 <= j < |fields| && fields[i].Text? && fields[j].Text? ==>
          fields[i].text == fields[j].text)
  }

  function Captured(existing: Option<Text>, fields: seq<Field>): Option<Text> {
    if existing.Some? then existing else FirstText(fields)
  }

  /** Capturing head then tail is capturing the whole run. */
  lemma AgreeStep(existing: Option<Text>, fields: seq<Field>)
    requires fields != []
    ensures var head := CaptureStable(existing, fields[0]);
            && (Agree(existing, fields) <==> head.Some? && Agree(head.value, fields[1..]))
            && (head.Some? ==> Captured(existing, fields) == Captured(head.value, fields[1..]))
  {
    var head := CaptureStable(existing, fields[0]);
    assert forall i :: 0 < i < |fields| ==> fields[i] == fields[1..][i-1];
    if head.Some? && Agree(head.value, fields[1..]) {
      assert forall i :: 0 <= i < |fields| && fields[i].Text? ==> head.value == Some(fields[i].text) || head.value == None;
    }
    if Agree(existing, fields) && head.Some? {
      assert forall i :: 0 <= i < |fields[1..]| ==> fields[1..][i] == fields[i+1];
    }
  }

  lemma {:induction false} FirstTextSnoc(fields: seq<Field>, last: Field)
    ensures FirstText(fields + [last]) ==
            if FirstText(fields).Some? then FirstText(fields) else if last.Text? then Some(last.text) else None
    ensures FirstText(fields) == None ==> forall i :: 0 <= i < |fields| ==> !fields[i].Text?
    ensures FirstText(fields).Some? ==> exists i :: 0 <= i < |fields| && fields[i] == Field.Text(FirstText(fields).value)
  {
    var all := fields + [last];
    if fields == [] {
      assert all[1..] == [];
    } else {
      assert all[0] == fields[0] && all[1..] == fields[1..] + [last];
      FirstTextSnoc(fields[1..], last);
      if !fields[0].Text? && FirstText(fields).Some? {
        var i :| 0 <= i < |fields[1..]| && fields[1..][i] == Field.Text(FirstText(fields).value);
        assert fields[i + 1] == Field.Text(FirstText(fields).value);
      }
    }
  }

  /** Capturing one more field after a run of them. */
  lemma AgreeSnoc(fields: seq<Field>, last: Field)
    requires Agree(None, fields)
    ensures var next := CaptureStable(Captured(None, fields), last);
            && (Agree(None, fields + [last]) <==> next.Some?)
            && (next.Some? ==> Captured(None, fields + [last]) == next.value)
  {
    FirstTextSnoc(fields, last);
    var all := fields + [last];
    assert all[|fields|] == last && forall i :: 0 <= i < |fields| ==> all[i] == fields[i];
    if FirstText(fields).Some? {
      var i :| 0 <= i < |fields| && fields[i] == Field.Text(FirstText(fields).value);
      assert all[i] == fields[i];
    }
  }

  lemma AgreePrefix(fields: seq<Field>, last: Field)
    requires Agree(None, fields + [last])
    ensures Agree(None, fields)
  {
    var all := fields + [last];
    assert forall i :: 0 <= i < |fields| ==> all[i] == fields[i];
  }

  // ----- Typed events -----

  /** The `type` member of a typed event's payload. */
  datatype TypeField = NoType | TypeText(name: string) | TypeNotText

  /** The type of a typed event: the payload's, else the event name; they must not conflict. */
  function ResolveType(eventName: Option<string>, bodyType: TypeField): (r: Option<string>)
    ensures r.Some? <==>
            && !bodyType.TypeNotText?
            && (Named(eventName) || Typed(bodyType))
            && (Named(eventName) && Typed(bodyType) ==> eventName.value == bodyType.name)
    ensures r.Some? ==> (Typed(bodyType) ==> r.value == bodyType.name) && (Named(eventName) ==> r.value == eventName.value)
  {
    match bodyType
    case TypeNotText => None
    case TypeText(t) =>
      if t == "" then (if Named(eventName) then eventName else None)
      else if Named(eventName) && eventName.value != t then None
      else Some(t)
    case NoType => if Named(eventName) then eventName else None
  }

  predicate Named(eventName: Option<string>) { eventName.Some? && eventName.value != "" }

  predicate Typed(bodyType: TypeField) { bodyType.TypeText? && bodyType.name != "" }

  /** Provider error codes that a retry may cure. */
  function ErrorOf(codes: set<string>, rateLimit: set<string>, server: set<string>): Failure {
    if codes * rateLimit != {} then ProviderError("rate_limited", true)
    else if codes * server != {} then ProviderError("provider_5xx", true)
    else ProviderError("provider_stream_error", false)
  }
}
