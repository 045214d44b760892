/** Events of a streaming response, and the shape of one line of a server-sent event stream. */
module Stream {
  import opened Prelude

  /** A JSON value.  Numbers keep their text. */
  datatype Value =
    | Null
    | Bool(b: bool)
    | Number(text: string)
    | Str(s: string)
    | Array(items: seq<Value>)
    | Object(fields: seq<(string, Value)>)

  datatype StreamEvent =
    | TextDelta(text: string)
    | Thinking(text: string)
    | ToolUse(id: string, name: string, input: Value)
    | Done(model: string, tokensIn: nat, tokensOut: nat, stopReason: string)
    | Error(message: string)

  /** A piece of the response body: text, bytes that are not valid UTF-8 on their own, or a
      transport error. */
  datatype Chunk = Chunk(text: string) | Invalid | Broken(message: string)

  /** The text chunks before the first transport error; chunks that are not valid UTF-8 are skipped. */
  function Received(chunks: seq<Chunk>): seq<string> {
    if chunks == [] || chunks[0].Broken? then []
    else (if chunks[0].Chunk? then [chunks[0].text] else []) + Received(chunks[1..])
  }

  /** The error that ends the stream early, if any. */
  function FirstError(chunks: seq<Chunk>): Option<string> {
    if chunks == [] then None
    else if chunks[0].Broken? then Some(chunks[0].message)
    else FirstError(chunks[1..])
  }

  lemma {:induction false} ReceivedAppend(chunks: seq<Chunk>, c: Chunk)
    requires FirstError(chunks).None?
    ensures Received(chunks + [c]) == Received(chunks) + (if c.Chunk? then [c.text] else [])
    ensures FirstError(chunks + [c]) == if c.Broken? then Some(c.message) else None
  {
    if chunks != [] {
      assert (chunks + [c])[1..] == chunks[1..] + [c];
      ReceivedAppend(chunks[1..], c);
    }
  }

  lemma {:induction false} ErrorEndsStream(chunks: seq<Chunk>, i: nat)
    requires i < |chunks| && chunks[i].Broken? && FirstError(chunks[..i]).None?
    ensures Received(chunks) == Received(chunks[..i]) && FirstError(chunks) == Some(chunks[i].message)
  {
    if i > 0 {
      assert chunks[..i][1..] == chunks[1..][..i - 1];
      ErrorEndsStream(chunks[1..], i - 1);
    }
  }

  datatype SseParsed = Event(name: string) | Data(data: string)

  function StripPrefix(s: string, prefix: string): Option<string> {
    if prefix <= s then Some(s[|prefix|..]) else None
  }

  /** One line of the stream: `event: <type>`, `data: <payload>`, or neither. */
  function ParseSseLine(line: string): Option<SseParsed> {
    match StripPrefix(line, "event: ")
    case Some(name) => Some(Event(name))
    case None =>
      match StripPrefix(line, "data: ")
      case Some(data) => Some(Data(data))
      case None => None
  }

  lemma StripAdded(prefix: string, s: string)
    ensures StripPrefix(prefix + s, prefix) == Some(s)
  {
    assert prefix <= prefix + s && (prefix + s)[|prefix|..] == s;
  }

  lemma StripOther(prefix: string, s: string)
    requires prefix != "" && s != "" && prefix[0] != s[0]
    ensures StripPrefix(s, prefix) == None
  {
  }

  lemma ParsesEvent(name: string)
    ensures ParseSseLine("event: " + name) == Some(Event(name))
  {
    StripAdded("event: ", name);
  }

  lemma ParsesData(data: string)
    ensures ParseSseLine("data: " + data) == Some(Data(data))
  {
    StripAdded("data: ", data);
    StripOther("event: ", "data: " + data);
  }

  lemma ParsesExactly(line: string)
    ensures ParseSseLine(line) ==
            if "event: " <= line then Some(Event(line[7..]))
            else if "data: " <= line then Some(Data(line[6..]))
            else None
  {}

  datatype ToolCall = ToolCall(id: string, name: string, input: Value)

  /** A complete, non-streaming response. */
  datatype ChatResponse = ChatResponse(
    content: string, model: string, tokensIn: nat, tokensOut: nat, stopReason: string, toolCalls: seq<ToolCall>)

  /** The text of the text deltas, in order. */
  function TextOf(events: seq<StreamEvent>): string {
    if events == [] then ""
    else TextOf(events[..|events| - 1]) +
         (var last := events[|events| - 1]; if last.TextDelta? then last.text else "")
  }

  /** The tool calls, in order. */
  function ToolsOf(events: seq<StreamEvent>): seq<ToolCall> {
    if events == [] then []
    else ToolsOf(events[..|events| - 1]) +
         (var last := events[|events| - 1]; if last.ToolUse? then [ToolCall(last.id, last.name, last.input)] else [])
  }

  /** No event ends the stream, with an error or as done. */
  predicate NoEnd(events: seq<StreamEvent>) {
    events == [] ||
    (var last := events[|events| - 1]; !last.Error? && !last.Done? && NoEnd(events[..|events| - 1]))
  }

  lemma Appended(events: seq<StreamEvent>, e: StreamEvent)
    ensures NoEnd(events + [e]) == (NoEnd(events) && !e.Error? && !e.Done?)
    ensures TextOf(events + [e]) == TextOf(events) + (if e.TextDelta? then e.text else "")
    ensures ToolsOf(events + [e]) == ToolsOf(events) + (if e.ToolUse? then [ToolCall(e.id, e.name, e.input)] else [])
  {
    assert (events + [e])[..|events|] == events;
  }

  /** What the events of a stream say, taken together, is a complete response. */
  predicate Says(events: seq<StreamEvent>, r: ChatResponse) {
    events != [] && events[|events| - 1] == Done(r.model, r.tokensIn, r.tokensOut, r.stopReason) &&
    TextOf(events) == r.content && ToolsOf(events) == r.toolCalls &&
    NoEnd(events[..|events| - 1])
  }
}
