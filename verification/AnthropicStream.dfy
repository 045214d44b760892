/** The Anthropic decoders: the streaming one, a line buffer in front of a block state machine,
    and the one for complete responses, which the streaming one must agree with. */
module AnthropicStream {
  import opened Prelude
  import opened Stream
  import opened LineBuffer
  import opened Text

  // ---------------------------------------------------------------------
  // Payloads
  // ---------------------------------------------------------------------

  datatype BlockMeta = BlockMeta(blockType: string, id: Option<string>, name: Option<string>)

  datatype Delta = Delta(
    deltaType: string, text: Option<string>, thinking: Option<string>, partialJson: Option<string>)

  /** How the JSON library reads each payload; `None` where it reports an error. */
  datatype Codec = Codec(
    value: string -> Option<Value>,
    messageStart: string -> Option<(string, nat)>,
    blockStart: string -> Option<BlockMeta>,
    blockDelta: string -> Option<Delta>,
    messageDelta: string -> Option<(Option<string>, nat)>)

  // ---------------------------------------------------------------------
  // The block state machine
  // ---------------------------------------------------------------------

  datatype Decoder = Decoder(
    blockType: string, toolId: string, toolName: string, toolJson: string,
    model: string, tokensIn: nat, tokensOut: nat, stopReason: string, out: seq<StreamEvent>)

  const INITIAL: Decoder := Decoder("", "", "", "", "", 0, 0, "", [])

  function OrEmpty(s: Option<string>): string { if s.Some? then s.value else "" }

  /** The accumulated tool input; text that is not JSON becomes an empty object. */
  function ToolInput(codec: Codec, json: string): Value {
    match codec.value(json)
    case Some(v) => v
    case None => Object([])
  }

  datatype EventKind = MessageStart | BlockStart | BlockDelta | BlockStop | MessageDelta | StreamError | Ignored

  /** The event names the decoder acts on; pings, the message stop and anything unknown are ignored. */
  function KindOf(event: string): EventKind {
    if event == "message_start" then MessageStart
    else if event == "content_block_start" then BlockStart
    else if event == "content_block_delta" then BlockDelta
    else if event == "content_block_stop" then BlockStop
    else if event == "message_delta" then MessageDelta
    else if event == "error" then StreamError
    else Ignored
  }

  datatype DeltaKind = TextKind | ThinkingKind | JsonKind | OtherKind

  function DeltaKindOf(deltaType: string): DeltaKind {
    if deltaType == "text_delta" then TextKind
    else if deltaType == "thinking_delta" then ThinkingKind
    else if deltaType == "input_json_delta" then JsonKind
    else OtherKind
  }

  /** One data payload under an event of this kind. */
  function DataStep(codec: Codec, d: Decoder, kind: EventKind, data: string): Decoder {
    match kind
    case MessageStart =>
      (match codec.messageStart(data)
       case Some((model, tokensIn)) => d.(model := model, tokensIn := tokensIn)
       case None => d)
    case BlockStart =>
      (match codec.blockStart(data)
       case Some(meta) =>
         if meta.blockType == "tool_use"
         then d.(blockType := meta.blockType, toolId := OrEmpty(meta.id),
                 toolName := OrEmpty(meta.name), toolJson := "")
         else d.(blockType := meta.blockType)
       case None => d)
    case BlockDelta =>
      (match codec.blockDelta(data)
       case Some(delta) => DeltaStep(d, delta)
       case None => d)
    case BlockStop =>
      if d.blockType == "tool_use"
      then d.(blockType := "", toolId := "", toolName := "", toolJson := "",
              out := d.out + [ToolUse(d.toolId, d.toolName, ToolInput(codec, d.toolJson))])
      else d.(blockType := "")
    case MessageDelta =>
      (match codec.messageDelta(data)
       case Some((reason, tokensOut)) =>
         d.(tokensOut := tokensOut, stopReason := if reason.Some? then reason.value else d.stopReason)
       case None => d)
    case StreamError => d.(out := d.out + [Error(data)])
    case Ignored => d
  }

  function DeltaStep(d: Decoder, delta: Delta): Decoder {
    match DeltaKindOf(delta.deltaType)
    case TextKind => if delta.text.Some? then d.(out := d.out + [TextDelta(delta.text.value)]) else d
    case ThinkingKind => if delta.thinking.Some? then d.(out := d.out + [Thinking(delta.thinking.value)]) else d
    case JsonKind => if delta.partialJson.Some? then d.(toolJson := d.toolJson + delta.partialJson.value) else d
    case OtherKind => d
  }

  /** The decoder between two lines: the event name last seen, and the block state. */
  datatype LineState = LineState(event: string, d: Decoder)

  function LineStep(codec: Codec, s: LineState, line: string): LineState {
    var trimmed := Trim(line);
    if trimmed == "" then s else SseStep(codec, s, ParseSseLine(trimmed))
  }

  function SseStep(codec: Codec, s: LineState, parsed: Option<SseParsed>): LineState {
    match parsed
    case Some(Event(name)) => s.(event := name)
    case Some(Data(data)) => s.(d := DataStep(codec, s.d, KindOf(s.event), data))
    case None => s
  }

  function Stepper(codec: Codec): (LineState, string) -> LineState {
    (s, line) => LineStep(codec, s, line)
  }

  function DoneEvent(d: Decoder): StreamEvent { Done(d.model, d.tokensIn, d.tokensOut, d.stopReason) }

  /** Every event of a response whose body arrives as these pieces of text. */
  function Decode(codec: Codec, chunks: seq<string>): seq<StreamEvent> {
    var d := Feed(LineByLine(Stepper(codec)), LineState("", INITIAL), chunks).0.d;
    d.out + [DoneEvent(d)]
  }

  /** However the body is cut into chunks, the events are those of the body in one chunk. */
  lemma ChunkingIsInvisible(codec: Codec, chunks: seq<string>)
    ensures Decode(codec, chunks) == Decode(codec, [Concat(chunks)])
  {
    var group := LineByLine(Stepper(codec));
    LineByLineIsCompositional(Stepper(codec));
    ChunkIndependence(group, LineState("", INITIAL), chunks);
    ChunkIndependence(group, LineState("", INITIAL), [Concat(chunks)]);
    assert Concat([Concat(chunks)]) == Concat(chunks);
  }

  // ---------------------------------------------------------------------
  // The streaming decoder
  // ---------------------------------------------------------------------

  /** The decoder's mutable state, written block by block. */
  class BlockParser {
    var blockType: string
    var toolId: string
    var toolName: string
    var toolJson: string
    var model: string
    var tokensIn: nat
    var tokensOut: nat
    var stopReason: string

    constructor ()
      ensures View([]) == INITIAL
    {
      blockType, toolId, toolName, toolJson := "", "", "", "";
      model, tokensIn, tokensOut, stopReason := "", 0, 0, "";
    }

    /** The state as a value, with the events sent so far. */
    ghost function View(out: seq<StreamEvent>): Decoder
      reads this
    {
      Decoder(blockType, toolId, toolName, toolJson, model, tokensIn, tokensOut, stopReason, out)
    }

    /** One data payload: updates the state in place and yields at most one event. */
    method ParseDataBlock(codec: Codec, event: string, data: string) returns (e: Option<StreamEvent>)
      modifies this
      ensures forall out :: View(out + (if e.Some? then [e.value] else [])) ==
                            DataStep(codec, old(View(out)), KindOf(event), data)
    {
      e := None;
      match KindOf(event) {
        case MessageStart =>
          var start := codec.messageStart(data);
          if start.Some? { model, tokensIn := start.value.0, start.value.1; }
        case BlockStart =>
          var start := codec.blockStart(data);
          if start.Some? {
            blockType := start.value.blockType;
            if blockType == "tool_use" {
              toolId, toolName, toolJson := OrEmpty(start.value.id), OrEmpty(start.value.name), "";
            }
          }
        case BlockDelta =>
          var read := codec.blockDelta(data);
          if read.Some? {
            var delta := read.value;
            match DeltaKindOf(delta.deltaType) {
              case TextKind => if delta.text.Some? { e := Some(TextDelta(delta.text.value)); }
              case ThinkingKind => if delta.thinking.Some? { e := Some(Thinking(delta.thinking.value)); }
              case JsonKind =>
                if delta.partialJson.Some? { toolJson := toolJson + delta.partialJson.value; }
              case OtherKind =>
            }
          }
        case BlockStop =>
          if blockType == "tool_use" {
            e := Some(ToolUse(toolId, toolName, ToolInput(codec, toolJson)));
            toolId, toolName, toolJson := "", "", "";
          }
          blockType := "";
        case MessageDelta =>
          var delta := codec.messageDelta(data);
          if delta.Some? {
            tokensOut := delta.value.1;
            if delta.value.0.Some? { stopReason := delta.value.0.value; }
          }
        case StreamError => e := Some(Error(data));
        case Ignored =>
      }
      assert forall out: seq<StreamEvent> :: out + [] == out;
    }
  }

  /** Processes the complete lines of one chunk, returning the event name last seen and the
      events sent; `out` are the events sent before. */
  method ProcessLines(codec: Codec, parser: BlockParser, lines: seq<string>, start: string, ghost out: seq<StreamEvent>)
    returns (event: string, events: seq<StreamEvent>)
    modifies parser
    ensures LineState(event, parser.View(out + events)) ==
            FoldLines(Stepper(codec), LineState(start, old(parser.View(out))), lines)
  {
    hide DataStep, KindOf, Trim, ParseSseLine, FoldLines;
    event, events := start, [];
    assert out + events == out;
    FoldNone(Stepper(codec), LineState(start, parser.View(out)));
    ghost var before := LineState(start, parser.View(out));
    for k := 0 to |lines|
      invariant LineState(event, parser.View(out + events)) == FoldLines(Stepper(codec), before, lines[..k])
    {
      assert lines[..k + 1] == lines[..k] + [lines[k]];
      FoldOne(Stepper(codec), before, lines[..k], lines[k]);
      var line := Trim(lines[k]);
      if line == "" { continue; }
      match ParseSseLine(line) {
        case Some(Event(name)) => event := name;
        case Some(Data(data)) =>
          var e := parser.ParseDataBlock(codec, event, data);
          var sent := if e.Some? then [e.value] else [];
          Associative(out, events, sent);
          events := events + sent;
        case None =>
      }
    }
    assert lines[..|lines|] == lines;
  }

  /** Reads a response body and returns every event sent: those of the text received, then the
      transport error or the final `Done`. */
  method ProcessStream(codec: Codec, chunks: seq<Chunk>) returns (events: seq<StreamEvent>)
    ensures FirstError(chunks).None? ==> events == Decode(codec, Received(chunks))
    ensures FirstError(chunks).Some? ==>
              events == Feed(LineByLine(Stepper(codec)), LineState("", INITIAL), Received(chunks)).0.d.out +
                        [Error(FirstError(chunks).value)]
  {
    var event, lineBuf := "", "";
    var parser := new BlockParser();
    events := [];
    ghost var group := LineByLine(Stepper(codec));
    ghost var initial := LineState("", INITIAL);
    for i := 0 to |chunks|
      invariant fresh(parser)
      invariant FirstError(chunks[..i]).None?
      invariant Feed(group, initial, Received(chunks[..i])) == (LineState(event, parser.View(events)), lineBuf)
    {
      assert chunks[..i + 1] == chunks[..i] + [chunks[i]];
      ghost var received := Received(chunks[..i]);
      ReceivedAppend(chunks[..i], chunks[i]);
      match chunks[i] {
        case Broken(message) =>
          ErrorEndsStream(chunks, i);
          return events + [Error(message)];
        case Invalid =>
          assert received + [] == received;
        case Chunk(text) =>
          var split := SplitLines(lineBuf + text);
          FeedOne(group, initial, received, text);
          var more;
          event, more := ProcessLines(codec, parser, split.complete, event, events);
          events, lineBuf := events + more, split.rest;
      }
    }
    assert chunks[..|chunks|] == chunks;
    events := events + [Done(parser.model, parser.tokensIn, parser.tokensOut, parser.stopReason)];
  }

  // ---------------------------------------------------------------------
  // The decoder for complete responses
  // ---------------------------------------------------------------------

  datatype ContentBlock =
    | TextBlock(text: string)
    | ThinkingBlock(thinking: string)
    | ToolUseBlock(id: string, name: string, input: Value)
    | UnknownBlock

  datatype ApiResponse = ApiResponse(
    model: string, content: seq<ContentBlock>, stopReason: Option<string>, inputTokens: nat, outputTokens: nat)

  function BlockText(b: ContentBlock): string { if b.TextBlock? then b.text else "" }

  function BlockTools(b: ContentBlock): seq<ToolCall> {
    if b.ToolUseBlock? then [ToolCall(b.id, b.name, b.input)] else []
  }

  function ContentText(content: seq<ContentBlock>): string {
    if content == [] then "" else ContentText(content[..|content| - 1]) + BlockText(content[|content| - 1])
  }

  function ContentTools(content: seq<ContentBlock>): seq<ToolCall> {
    if content == [] then [] else ContentTools(content[..|content| - 1]) + BlockTools(content[|content| - 1])
  }

  function Parsed(resp: ApiResponse): ChatResponse {
    ChatResponse(ContentText(resp.content), resp.model, resp.inputTokens, resp.outputTokens,
                 OrEmpty(resp.stopReason), ContentTools(resp.content))
  }

  /** The text is that of the text blocks, joined in order, and the calls are the tool blocks in order. */
  ghost predicate HoldsBlocks(content: seq<ContentBlock>, r: ChatResponse) {
    (exists at, kept, texts ::
       Keeps(content, IsText, at, kept) && AreTexts(kept, texts) && r.content == Concat(texts)) &&
    (exists at, kept :: Keeps(content, IsCall, at, kept) && AreCalls(kept, r.toolCalls))
  }

  predicate IsText(b: ContentBlock) { b.TextBlock? }

  predicate IsCall(b: ContentBlock) { b.ToolUseBlock? }

  ghost predicate AreTexts(blocks: seq<ContentBlock>, texts: seq<string>) {
    |blocks| == |texts| && forall k :: 0 <= k < |texts| ==> blocks[k] == TextBlock(texts[k])
  }

  ghost predicate AreCalls(blocks: seq<ContentBlock>, calls: seq<ToolCall>) {
    |blocks| == |calls| &&
    forall k :: 0 <= k < |calls| ==> blocks[k] == ToolUseBlock(calls[k].id, calls[k].name, calls[k].input)
  }

  lemma {:induction false} TextsFound(content: seq<ContentBlock>)
    returns (at: seq<nat>, kept: seq<ContentBlock>, texts: seq<string>)
    ensures Keeps(content, IsText, at, kept) && AreTexts(kept, texts) && ContentText(content) == Concat(texts)
  {
    hide Keeps, Concat;
    at, kept, texts := [], [], [];
    KeepsNone(IsText);
    ConcatNone();
    if content != [] {
      var (front, last) := (content[..|content| - 1], content[|content| - 1]);
      at, kept, texts := TextsFound(front);
      KeepsOneMore(front, IsText, at, kept, last);
      assert content == front + [last];
      NothingAdded(ContentText(front));
      if IsText(last) {
        ConcatOne(texts, last.text);
        at, kept, texts := at + [|front|], kept + [last], texts + [last.text];
      }
    }
  }

  lemma ConcatNone()
    ensures Concat([]) == ""
  {}

  lemma ConcatOne(texts: seq<string>, text: string)
    ensures Concat(texts + [text]) == Concat(texts) + text
  {
    ConcatAppend(texts, [text]);
    assert Concat([text]) == text;
  }

  lemma {:induction false} CallsFound(content: seq<ContentBlock>) returns (at: seq<nat>, kept: seq<ContentBlock>)
    ensures Keeps(content, IsCall, at, kept) && AreCalls(kept, ContentTools(content))
  {
    hide Keeps;
    at, kept := [], [];
    KeepsNone(IsCall);
    if content != [] {
      var (front, last) := (content[..|content| - 1], content[|content| - 1]);
      at, kept := CallsFound(front);
      KeepsOneMore(front, IsCall, at, kept, last);
      assert content == front + [last];
      NothingAdded(ContentTools(front));
      if IsCall(last) { at, kept := at + [|front|], kept + [last]; }
    }
  }

  lemma ParsedHolds(resp: ApiResponse)
    ensures HoldsBlocks(resp.content, Parsed(resp))
  {
    hide Keeps, AreTexts, AreCalls, ContentText, ContentTools;
    var at, kept, texts := TextsFound(resp.content);
    var at', kept' := CallsFound(resp.content);
  }

  /** Collects the text blocks and the tool calls of a complete response. */
  method ParseResponse(resp: ApiResponse) returns (r: ChatResponse)
    ensures r == Parsed(resp)
    ensures r.model == resp.model && r.tokensIn == resp.inputTokens && r.tokensOut == resp.outputTokens
    ensures r.stopReason == if resp.stopReason.Some? then resp.stopReason.value else ""
    ensures HoldsBlocks(resp.content, r)
  {
    hide HoldsBlocks;
    ParsedHolds(resp);
    var textParts: seq<string> := [];
    var toolCalls: seq<ToolCall> := [];
    for i := 0 to |resp.content|
      invariant Concat(textParts) == ContentText(resp.content[..i])
      invariant toolCalls == ContentTools(resp.content[..i])
    {
      assert resp.content[..i + 1][..i] == resp.content[..i];
      match resp.content[i] {
        case TextBlock(text) =>
          ConcatAppend(textParts, [text]);
          assert Concat([text]) == text;
          textParts := textParts + [text];
        case ToolUseBlock(id, name, input) => toolCalls := toolCalls + [ToolCall(id, name, input)];
        case _ =>
      }
    }
    assert resp.content[..|resp.content|] == resp.content;
    r := ChatResponse(Concat(textParts), resp.model, resp.inputTokens, resp.outputTokens,
                      OrEmpty(resp.stopReason), toolCalls);
  }

  // ---------------------------------------------------------------------
  // A message on the wire
  // ---------------------------------------------------------------------

  /** One server-sent event: its name and its payload. */
  datatype Frame = Frame(event: string, data: string)

  /** The payloads of one content block: its start, its deltas however the content was cut, its stop. */
  datatype WireBlock = WireBlock(start: string, deltas: seq<string>, stop: string)

  datatype WireMessage = WireMessage(start: string, blocks: seq<WireBlock>, delta: string)

  /** The text, and the tool input JSON, of one delta. */
  function PieceText(codec: Codec, delta: string): string {
    var read := codec.blockDelta(delta);
    if read.Some? && read.value.deltaType == "text_delta" && read.value.text.Some? then read.value.text.value else ""
  }

  function PieceJson(codec: Codec, delta: string): string {
    var read := codec.blockDelta(delta);
    if read.Some? && read.value.deltaType == "input_json_delta" && read.value.partialJson.Some?
    then read.value.partialJson.value else ""
  }

  /** The text the deltas of a block add up to. */
  function DeltaText(codec: Codec, deltas: seq<string>): string {
    if deltas == [] then ""
    else DeltaText(codec, deltas[..|deltas| - 1]) + PieceText(codec, deltas[|deltas| - 1])
  }

  /** The tool input JSON the deltas of a block add up to. */
  function DeltaJson(codec: Codec, deltas: seq<string>): string {
    if deltas == [] then ""
    else DeltaJson(codec, deltas[..|deltas| - 1]) + PieceJson(codec, deltas[|deltas| - 1])
  }

  /** A wire block carries a content block: text appears only in text blocks, and a tool's input
      is what its accumulated JSON reads as (nothing at all standing for the empty object). */
  predicate Carries(codec: Codec, w: WireBlock, b: ContentBlock) {
    codec.blockStart(w.start).Some? &&
    var meta := codec.blockStart(w.start).value;
    DeltaText(codec, w.deltas) == BlockText(b) &&
    (b.ToolUseBlock? <==> meta.blockType == "tool_use") &&
    (b.ToolUseBlock? ==>
       meta.id == Some(b.id) && meta.name == Some(b.name) &&
       b.input == var read := codec.value(DeltaJson(codec, w.deltas)); if read.Some? then read.value else Object([]))
  }

  predicate CarriesMessage(codec: Codec, w: WireMessage, resp: ApiResponse) {
    codec.messageStart(w.start) == Some((resp.model, resp.inputTokens)) &&
    codec.messageDelta(w.delta) == Some((resp.stopReason, resp.outputTokens)) &&
    |w.blocks| == |resp.content| &&
    forall i :: 0 <= i < |w.blocks| ==> Carries(codec, w.blocks[i], resp.content[i])
  }

  // --- the frames of a message, by the names the protocol gives them ----------

  /** The events that mean anything; pings, the message stop and unknown events do not. */
  predicate IsMeant(event: string) {
    event == "message_start" || event == "content_block_start" || event == "content_block_delta" ||
    event == "content_block_stop" || event == "message_delta" || event == "error"
  }

  /** The frames that mean anything, in order. */
  function Meant(frames: seq<Frame>): seq<Frame> {
    if frames == [] then []
    else
      var last := frames[|frames| - 1];
      Meant(frames[..|frames| - 1]) + if IsMeant(last.event) then [last] else []
  }

  function DeltaFrames(deltas: seq<string>): seq<Frame> {
    if deltas == [] then []
    else DeltaFrames(deltas[..|deltas| - 1]) + [Frame("content_block_delta", deltas[|deltas| - 1])]
  }

  function BlockFrames(w: WireBlock): seq<Frame> {
    [Frame("content_block_start", w.start)] + DeltaFrames(w.deltas) + [Frame("content_block_stop", w.stop)]
  }

  function BlocksFrames(blocks: seq<WireBlock>): seq<Frame> {
    if blocks == [] then [] else BlocksFrames(blocks[..|blocks| - 1]) + BlockFrames(blocks[|blocks| - 1])
  }

  /** The frames of a message: its start, its blocks one after the other, its end. */
  function MessageFrames(w: WireMessage): seq<Frame> {
    [Frame("message_start", w.start)] + BlocksFrames(w.blocks) + [Frame("message_delta", w.delta)]
  }

  /** A frame as the decoder sees it. */
  datatype Act = Act(kind: EventKind, data: string)

  function DeltaActs(deltas: seq<string>): seq<Act> {
    if deltas == [] then [] else DeltaActs(deltas[..|deltas| - 1]) + [Act(BlockDelta, deltas[|deltas| - 1])]
  }

  function BlockActs(w: WireBlock): seq<Act> {
    [Act(BlockStart, w.start)] + DeltaActs(w.deltas) + [Act(BlockStop, w.stop)]
  }

  function BlocksActs(blocks: seq<WireBlock>): seq<Act> {
    if blocks == [] then [] else BlocksActs(blocks[..|blocks| - 1]) + BlockActs(blocks[|blocks| - 1])
  }

  function MessageActs(w: WireMessage): seq<Act> {
    [Act(MessageStart, w.start)] + BlocksActs(w.blocks) + [Act(MessageDelta, w.delta)]
  }

  /** The frames that are not ignored, in order. */
  function Acts(frames: seq<Frame>): seq<Act> {
    if frames == [] then []
    else Acts(frames[..|frames| - 1]) +
         (var last := frames[|frames| - 1];
          if KindOf(last.event).Ignored? then [] else [Act(KindOf(last.event), last.data)])
  }

  lemma ActsOne(frames: seq<Frame>, f: Frame)
    ensures Acts(frames + [f]) == Acts(frames) + if IsMeant(f.event) then [Act(KindOf(f.event), f.data)] else []
    ensures Meant(frames + [f]) == Meant(frames) + if IsMeant(f.event) then [f] else []
  {
    assert (frames + [f])[..|frames|] == frames;
  }

  lemma {:induction false} ActsConcat(a: seq<Frame>, b: seq<Frame>)
    ensures Acts(a + b) == Acts(a) + Acts(b)
  {
    if b == [] {
      assert a + b == a;
    } else {
      assert (a + b)[..|a + b| - 1] == a + b[..|b| - 1];
      ActsConcat(a, b[..|b| - 1]);
    }
  }

  lemma MeantOneMore(front: seq<Frame>, last: Frame)
    requires Acts(Meant(front)) == Acts(front)
    ensures Acts(Meant(front + [last])) == Acts(front + [last])
  {
    ActsOne(front, last);
    ActsOne(Meant(front), last);
    hide Acts, Meant, KindOf, IsMeant;
    NothingAdded(Meant(front));
  }

  lemma NothingMeant()
    ensures Meant([]) == [] && Acts([]) == []
  {}

  /** Leaving out the frames that mean nothing changes nothing. */
  lemma {:induction false} MeantActs(frames: seq<Frame>)
    ensures Acts(Meant(frames)) == Acts(frames)
  {
    hide Acts, Meant;
    if frames == [] {
      NothingMeant();
    } else {
      MeantActs(frames[..|frames| - 1]);
      MeantOneMore(frames[..|frames| - 1], frames[|frames| - 1]);
      assert frames == frames[..|frames| - 1] + [frames[|frames| - 1]];
    }
  }

  lemma OneActs(event: string, data: string)
    ensures IsMeant(event) ==> Acts([Frame(event, data)]) == [Act(KindOf(event), data)]
  {
    assert [Frame(event, data)][..0] == [];
  }

  lemma {:induction false} DeltaFramesAct(deltas: seq<string>)
    ensures Acts(DeltaFrames(deltas)) == DeltaActs(deltas)
  {
    if deltas != [] {
      DeltaFramesAct(deltas[..|deltas| - 1]);
      ActsOne(DeltaFrames(deltas[..|deltas| - 1]), Frame("content_block_delta", deltas[|deltas| - 1]));
    }
  }

  lemma BlockFramesAct(w: WireBlock)
    ensures Acts(BlockFrames(w)) == BlockActs(w)
  {
    var (start, stop) := (Frame("content_block_start", w.start), Frame("content_block_stop", w.stop));
    DeltaFramesAct(w.deltas);
    OneActs(start.event, start.data);
    OneActs(stop.event, stop.data);
    ActsConcat([start], DeltaFrames(w.deltas));
    ActsConcat([start] + DeltaFrames(w.deltas), [stop]);
    hide Acts;
  }

  lemma {:induction false} BlocksFramesAct(blocks: seq<WireBlock>)
    ensures Acts(BlocksFrames(blocks)) == BlocksActs(blocks)
  {
    hide BlockFrames, BlockActs;
    if blocks != [] {
      BlocksFramesAct(blocks[..|blocks| - 1]);
      BlockFramesAct(blocks[|blocks| - 1]);
      ActsConcat(BlocksFrames(blocks[..|blocks| - 1]), BlockFrames(blocks[|blocks| - 1]));
    }
  }

  lemma MessageFramesAct(w: WireMessage)
    ensures Acts(MessageFrames(w)) == MessageActs(w)
  {
    var (start, end) := (Frame("message_start", w.start), Frame("message_delta", w.delta));
    BlocksFramesAct(w.blocks);
    OneActs(start.event, start.data);
    OneActs(end.event, end.data);
    ActsConcat([start], BlocksFrames(w.blocks));
    ActsConcat([start] + BlocksFrames(w.blocks), [end]);
    hide Acts, BlocksFrames, BlocksActs;
  }

  function Play(codec: Codec, d: Decoder, acts: seq<Act>): Decoder {
    if acts == [] then d
    else var last := acts[|acts| - 1];
         DataStep(codec, Play(codec, d, acts[..|acts| - 1]), last.kind, last.data)
  }

  lemma {:induction false} PlayConcat(codec: Codec, d: Decoder, a: seq<Act>, b: seq<Act>)
    ensures Play(codec, d, a + b) == Play(codec, Play(codec, d, a), b)
  {
    if b == [] {
      assert a + b == a;
    } else {
      assert (a + b)[..|a + b| - 1] == a + b[..|b| - 1];
      PlayConcat(codec, d, a, b[..|b| - 1]);
    }
  }

  lemma PlayOne(codec: Codec, d: Decoder, acts: seq<Act>, a: Act)
    ensures Play(codec, d, acts + [a]) == DataStep(codec, Play(codec, d, acts), a.kind, a.data)
  {
    assert (acts + [a])[..|acts|] == acts;
  }

  // ---------------------------------------------------------------------
  // Streaming agrees with the complete response
  // ---------------------------------------------------------------------

  /** `e` is `d` after more events that carry this text and these tool calls, and no end. */
  predicate Advanced(d: Decoder, e: Decoder, text: string, tools: seq<ToolCall>) {
    TextOf(e.out) == TextOf(d.out) + text && ToolsOf(e.out) == ToolsOf(d.out) + tools &&
    (NoEnd(d.out) ==> NoEnd(e.out)) &&
    e.model == d.model && e.tokensIn == d.tokensIn && e.tokensOut == d.tokensOut && e.stopReason == d.stopReason
  }

  lemma AdvancedTwice(d: Decoder, e: Decoder, f: Decoder, t: string, T: seq<ToolCall>, u: string, U: seq<ToolCall>)
    requires Advanced(d, e, t, T) && Advanced(e, f, u, U)
    ensures Advanced(d, f, t + u, T + U)
  {
    assert TextOf(d.out) + t + u == TextOf(d.out) + (t + u);
    assert ToolsOf(d.out) + T + U == ToolsOf(d.out) + (T + U);
  }

  lemma DeltaAdvances(codec: Codec, d: Decoder, delta: string)
    ensures var e := DataStep(codec, d, BlockDelta, delta);
            Advanced(d, e, PieceText(codec, delta), []) &&
            e.blockType == d.blockType && e.toolId == d.toolId && e.toolName == d.toolName &&
            e.toolJson == d.toolJson + PieceJson(codec, delta)
  {
    var read := codec.blockDelta(delta);
    if read.Some? {
      Appended(d.out, TextDelta(OrEmpty(read.value.text)));
      Appended(d.out, Thinking(OrEmpty(read.value.thinking)));
    }
  }

  lemma {:induction false} DeltasAdvance(codec: Codec, d: Decoder, deltas: seq<string>)
    ensures var e := Play(codec, d, DeltaActs(deltas));
            Advanced(d, e, DeltaText(codec, deltas), []) &&
            e.blockType == d.blockType && e.toolId == d.toolId && e.toolName == d.toolName &&
            e.toolJson == d.toolJson + DeltaJson(codec, deltas)
  {
    if deltas != [] {
      hide Play, DataStep, PieceText, PieceJson, Advanced;
      var (front, last) := (deltas[..|deltas| - 1], deltas[|deltas| - 1]);
      DeltasAdvance(codec, d, front);
      var before := Play(codec, d, DeltaActs(front));
      PlayOne(codec, d, DeltaActs(front), Act(BlockDelta, last));
      DeltaAdvances(codec, before, last);
      var e := Play(codec, d, DeltaActs(deltas));
      AdvancedTwice(d, before, e, DeltaText(codec, front), [], PieceText(codec, last), []);
      Associative(d.toolJson, DeltaJson(codec, front), PieceJson(codec, last));
      NothingAdded<ToolCall>([]);
    }
  }

  lemma BlockAdvances(codec: Codec, d: Decoder, w: WireBlock, b: ContentBlock)
    requires Carries(codec, w, b)
    ensures Advanced(d, Play(codec, d, BlockActs(w)), BlockText(b), BlockTools(b))
  {
    var started := DataStep(codec, d, BlockStart, w.start);
    var filled := Play(codec, started, DeltaActs(w.deltas));
    var stopped := DataStep(codec, filled, BlockStop, w.stop);
    PlayOne(codec, d, [], Act(BlockStart, w.start));
    assert [] + [Act(BlockStart, w.start)] == [Act(BlockStart, w.start)];
    PlayConcat(codec, d, [Act(BlockStart, w.start)], DeltaActs(w.deltas));
    PlayOne(codec, d, [Act(BlockStart, w.start)] + DeltaActs(w.deltas), Act(BlockStop, w.stop));
    assert Advanced(d, started, "", []);
    DeltasAdvance(codec, started, w.deltas);
    StopAdvances(codec, filled, w.stop);
    AdvancedTwice(d, started, filled, "", [], BlockText(b), []);
    assert "" + BlockText(b) == BlockText(b) && BlockText(b) + "" == BlockText(b);
    assert b.ToolUseBlock? ==> filled.toolJson == DeltaJson(codec, w.deltas);
    AdvancedTwice(d, filled, stopped, BlockText(b), [], "", BlockTools(b));
  }

  lemma StopAdvances(codec: Codec, d: Decoder, data: string)
    ensures Advanced(d, DataStep(codec, d, BlockStop, data), "",
              if d.blockType == "tool_use" then [ToolCall(d.toolId, d.toolName, ToolInput(codec, d.toolJson))] else [])
  {
    Appended(d.out, ToolUse(d.toolId, d.toolName, ToolInput(codec, d.toolJson)));
  }

  lemma {:induction false} BlocksAdvance(codec: Codec, d: Decoder, blocks: seq<WireBlock>, content: seq<ContentBlock>)
    requires |blocks| == |content| && forall i :: 0 <= i < |blocks| ==> Carries(codec, blocks[i], content[i])
    ensures Advanced(d, Play(codec, d, BlocksActs(blocks)), ContentText(content), ContentTools(content))
  {
    if blocks != [] {
      var n := |blocks| - 1;
      BlocksAdvance(codec, d, blocks[..n], content[..n]);
      var before := Play(codec, d, BlocksActs(blocks[..n]));
      PlayConcat(codec, d, BlocksActs(blocks[..n]), BlockActs(blocks[n]));
      BlockAdvances(codec, before, blocks[n], content[n]);
      AdvancedTwice(d, before, Play(codec, before, BlockActs(blocks[n])),
                    ContentText(content[..n]), ContentTools(content[..n]),
                    BlockText(content[n]), BlockTools(content[n]));
    }
  }

  lemma ActsSayMessage(codec: Codec, w: WireMessage, resp: ApiResponse)
    requires CarriesMessage(codec, w, resp)
    ensures var d := Play(codec, INITIAL, MessageActs(w));
            Says(d.out + [DoneEvent(d)], Parsed(resp))
  {
    var started := DataStep(codec, INITIAL, MessageStart, w.start);
    var filled := Play(codec, started, BlocksActs(w.blocks));
    PlayMessage(codec, w);
    BlocksAdvance(codec, started, w.blocks, resp.content);
    hide Play, ContentText, ContentTools, BlocksActs, MessageActs, Carries;
    var d := DataStep(codec, filled, MessageDelta, w.delta);
    EndSays(started, d, Parsed(resp));
  }

  lemma PlayMessage(codec: Codec, w: WireMessage)
    ensures Play(codec, INITIAL, MessageActs(w)) ==
            DataStep(codec, Play(codec, DataStep(codec, INITIAL, MessageStart, w.start), BlocksActs(w.blocks)),
                     MessageDelta, w.delta)
  {
    hide DataStep, BlocksActs;
    var start := Act(MessageStart, w.start);
    PlayOne(codec, INITIAL, [], start);
    assert [] + [start] == [start];
    PlayConcat(codec, INITIAL, [start], BlocksActs(w.blocks));
    PlayOne(codec, INITIAL, [start] + BlocksActs(w.blocks), Act(MessageDelta, w.delta));
  }

  /** The events of a decoder that has said nothing before, and the final `Done`. */
  lemma EndSays(started: Decoder, d: Decoder, r: ChatResponse)
    requires started.out == [] && NoEnd(d.out)
    requires TextOf(d.out) == TextOf(started.out) + r.content && ToolsOf(d.out) == ToolsOf(started.out) + r.toolCalls
    requires d.model == r.model && d.tokensIn == r.tokensIn &&
             d.tokensOut == r.tokensOut && d.stopReason == r.stopReason
    ensures Says(d.out + [DoneEvent(d)], r)
  {
    Appended(d.out, DoneEvent(d));
    assert (d.out + [DoneEvent(d)])[..|d.out|] == d.out;
    assert "" + r.content == r.content && [] + r.toolCalls == r.toolCalls;
    assert r.content + "" == r.content && r.toolCalls + [] == r.toolCalls;
  }

  // --- from bytes to frames ------------------------------------------------

  /** A piece of a stream line that trimming leaves alone. */
  predicate Clean(s: string) {
    s != "" && '\n' !in s && !IsWhitespace(s[|s| - 1])
  }

  function EventLine(f: Frame): string { "event: " + f.event }

  function DataLine(f: Frame): string { "data: " + f.data }

  function AddLine(text: string, line: string): string { text + (line + "\n") }

  /** The text of frames: for each, its event line, its data line, and the blank line that ends it. */
  function FramesText(frames: seq<Frame>): string {
    if frames == [] then ""
    else
      var last := frames[|frames| - 1];
      AddLine(AddLine(AddLine(FramesText(frames[..|frames| - 1]), EventLine(last)), DataLine(last)), "")
  }

  function FramesLines(frames: seq<Frame>): seq<string> {
    if frames == [] then []
    else
      var last := frames[|frames| - 1];
      FramesLines(frames[..|frames| - 1]) + [EventLine(last)] + [DataLine(last)] + [""]
  }

  lemma AddLineSplits(text: string, line: string)
    requires SplitLines(text).rest == "" && '\n' !in line
    ensures SplitLines(AddLine(text, line)) == Split(SplitLines(text).complete + [line], "")
  {
    SplitLine(line);
    SplitConcat(text, line + "\n");
    assert "" + (line + "\n") == line + "\n";
  }

  ghost predicate AllClean(frames: seq<Frame>) {
    forall i :: 0 <= i < |frames| ==> Clean(frames[i].event) && Clean(frames[i].data)
  }

  lemma {:induction false} FramesSplit(frames: seq<Frame>)
    requires AllClean(frames)
    ensures SplitLines(FramesText(frames)) == Split(FramesLines(frames), "")
  {
    if frames != [] {
      var (front, last) := (frames[..|frames| - 1], frames[|frames| - 1]);
      FramesSplit(front);
      var text := FramesText(front);
      AddLineSplits(text, EventLine(last));
      AddLineSplits(AddLine(text, EventLine(last)), DataLine(last));
      AddLineSplits(AddLine(AddLine(text, EventLine(last)), DataLine(last)), "");
    }
  }

  lemma TrimClean(prefix: string, s: string)
    requires prefix != "" && !IsWhitespace(prefix[0]) && Clean(s)
    ensures Trim(prefix + s) == prefix + s
  {
    assert (prefix + s)[0] == prefix[0];
    assert (prefix + s)[|prefix + s| - 1] == s[|s| - 1];
  }

  lemma EventLineTrims(f: Frame)
    requires Clean(f.event)
    ensures Trim(EventLine(f)) == EventLine(f) && EventLine(f) != ""
  {
    TrimClean("event: ", f.event);
  }

  lemma DataLineTrims(f: Frame)
    requires Clean(f.data)
    ensures Trim(DataLine(f)) == DataLine(f) && DataLine(f) != ""
  {
    TrimClean("data: ", f.data);
  }

  lemma EventLineStep(codec: Codec, s: LineState, f: Frame)
    requires Trim(EventLine(f)) == EventLine(f) && EventLine(f) != ""
    ensures LineStep(codec, s, EventLine(f)) == SseStep(codec, s, Some(Event(f.event)))
  {
    ParsesEvent(f.event);
  }

  lemma DataLineStep(codec: Codec, s: LineState, f: Frame)
    requires Trim(DataLine(f)) == DataLine(f) && DataLine(f) != ""
    ensures LineStep(codec, s, DataLine(f)) == SseStep(codec, s, Some(Data(f.data)))
  {
    ParsesData(f.data);
  }

  lemma FrameStep(codec: Codec, s: LineState, f: Frame)
    requires Clean(f.event) && Clean(f.data)
    ensures LineStep(codec, LineStep(codec, LineStep(codec, s, EventLine(f)), DataLine(f)), "") ==
            LineState(f.event, DataStep(codec, s.d, KindOf(f.event), f.data))
  {
    EventLineTrims(f);
    EventLineStep(codec, s, f);
    DataLineTrims(f);
    DataLineStep(codec, LineState(f.event, s.d), f);
  }

  /** Whatever takes the three lines of any frame to the frame's effect. */
  ghost predicate PlaysFrames(codec: Codec, step: (LineState, string) -> LineState) {
    forall s: LineState, f: Frame {:trigger step(step(s, EventLine(f)), DataLine(f))}
      | Clean(f.event) && Clean(f.data) ::
      step(step(step(s, EventLine(f)), DataLine(f)), "") ==
      LineState(f.event, DataStep(codec, s.d, KindOf(f.event), f.data))
  }

  lemma StepperPlaysFrames(codec: Codec)
    ensures PlaysFrames(codec, Stepper(codec))
  {
    forall s: LineState, f: Frame | Clean(f.event) && Clean(f.data)
      ensures Stepper(codec)(Stepper(codec)(Stepper(codec)(s, EventLine(f)), DataLine(f)), "") ==
              LineState(f.event, DataStep(codec, s.d, KindOf(f.event), f.data))
    {
      FrameStep(codec, s, f);
    }
  }

  lemma PlayFrame(codec: Codec, front: seq<Frame>, f: Frame)
    ensures Play(codec, INITIAL, Acts(front + [f])) ==
            DataStep(codec, Play(codec, INITIAL, Acts(front)), KindOf(f.event), f.data)
  {
    hide DataStep, Play, KindOf;
    assert (front + [f])[..|front|] == front;
    PlayOne(codec, INITIAL, Acts(front), Act(KindOf(f.event), f.data));
    NothingAdded(Acts(front));
    PlayIgnored(codec, Play(codec, INITIAL, Acts(front)), f.data);
  }

  lemma PlayIgnored(codec: Codec, d: Decoder, data: string)
    ensures DataStep(codec, d, Ignored, data) == d
  {}

  /** Reading the lines of some frames is playing what they act. */
  lemma {:induction false} LinesPlayFrames(codec: Codec, step: (LineState, string) -> LineState, frames: seq<Frame>)
    requires AllClean(frames) && PlaysFrames(codec, step)
    ensures FoldLines(step, LineState("", INITIAL), FramesLines(frames)).d == Play(codec, INITIAL, Acts(frames))
  {
    if frames != [] {
      var (front, last) := (frames[..|frames| - 1], frames[|frames| - 1]);
      LinesPlayFrames(codec, step, front);
      var (initial, lines) := (LineState("", INITIAL), FramesLines(front));
      FoldOne(step, initial, lines, EventLine(last));
      FoldOne(step, initial, lines + [EventLine(last)], DataLine(last));
      FoldOne(step, initial, lines + [EventLine(last)] + [DataLine(last)], "");
      PlayFrame(codec, front, last);
      assert frames == front + [last];
    }
  }

  /** Streaming refines the complete response: for any content blocks, any cutting of their text
      and tool input into deltas, any ignored frames in between, and any cutting of the body into
      chunks, the text, the tool calls and the final event of the stream are those of the complete
      response decoded at once. */
  lemma StreamingRefinesResponse(
      codec: Codec, resp: ApiResponse, w: WireMessage, frames: seq<Frame>, chunks: seq<string>)
    requires CarriesMessage(codec, w, resp) && Meant(frames) == MessageFrames(w) && AllClean(frames)
    requires Concat(chunks) == FramesText(frames)
    ensures Says(Decode(codec, chunks), Parsed(resp))
  {
    LineByLineIsCompositional(Stepper(codec));
    ChunkIndependence(LineByLine(Stepper(codec)), LineState("", INITIAL), chunks);
    FramesSplit(frames);
    StepperPlaysFrames(codec);
    LinesPlayFrames(codec, Stepper(codec), frames);
    MeantActs(frames);
    MessageFramesAct(w);
    ActsSayMessage(codec, w, resp);
  }

  // ---------------------------------------------------------------------
  // Any frames at all
  // ---------------------------------------------------------------------

  /** The event a frame is by itself: an error, or a piece of text or thinking. */
  function Itself(codec: Codec, f: Frame): seq<StreamEvent> {
    if f.event == "error" then [Error(f.data)]
    else if f.event == "content_block_delta" && codec.blockDelta(f.data).Some? then
      var delta := codec.blockDelta(f.data).value;
      if delta.deltaType == "text_delta" && delta.text.Some? then [TextDelta(delta.text.value)]
      else if delta.deltaType == "thinking_delta" && delta.thinking.Some? then [Thinking(delta.thinking.value)]
      else []
    else []
  }

  function Themselves(codec: Codec, frames: seq<Frame>): seq<StreamEvent> {
    if frames == [] then [] else Themselves(codec, frames[..|frames| - 1]) + Itself(codec, frames[|frames| - 1])
  }

  /** The events but for the tool calls. */
  function NoCalls(events: seq<StreamEvent>): seq<StreamEvent> {
    if events == [] then []
    else NoCalls(events[..|events| - 1]) +
         (var last := events[|events| - 1]; if last.ToolUse? then [] else [last])
  }

  /** The model and the input tokens of the last readable message start. */
  function Started(codec: Codec, frames: seq<Frame>): (string, nat) {
    if frames == [] then ("", 0)
    else
      var last := frames[|frames| - 1];
      if last.event == "message_start" && codec.messageStart(last.data).Some? then codec.messageStart(last.data).value
      else Started(codec, frames[..|frames| - 1])
  }

  /** The last stop reason given, and the output tokens of the last readable message delta. */
  function Ended(codec: Codec, frames: seq<Frame>): (string, nat) {
    if frames == [] then ("", 0)
    else
      var (last, before) := (frames[|frames| - 1], Ended(codec, frames[..|frames| - 1]));
      if last.event == "message_delta" && codec.messageDelta(last.data).Some? then
        var (reason, tokensOut) := codec.messageDelta(last.data).value;
        (if reason.Some? then reason.value else before.0, tokensOut)
      else before
  }

  ghost predicate Tells(codec: Codec, frames: seq<Frame>, d: Decoder) {
    NoCalls(d.out) == Themselves(codec, frames) && (d.model, d.tokensIn) == Started(codec, frames) &&
    (d.stopReason, d.tokensOut) == Ended(codec, frames)
  }

  lemma NoCallsOne(events: seq<StreamEvent>, e: StreamEvent)
    ensures NoCalls(events + [e]) == NoCalls(events) + if e.ToolUse? then [] else [e]
  {
    assert (events + [e])[..|events|] == events;
  }

  /** A frame sends itself, and perhaps a call. */
  lemma StepSends(codec: Codec, d: Decoder, f: Frame)
    ensures NoCalls(DataStep(codec, d, KindOf(f.event), f.data).out) == NoCalls(d.out) + Itself(codec, f)
  {
    hide NoCalls;
    var e := DataStep(codec, d, KindOf(f.event), f.data);
    NothingAdded(NoCalls(d.out));
    if |e.out| > |d.out| { NoCallsOne(d.out, e.out[|d.out|]); }
  }

  lemma StepTells(codec: Codec, frames: seq<Frame>, d: Decoder, f: Frame)
    requires Tells(codec, frames, d)
    ensures Tells(codec, frames + [f], DataStep(codec, d, KindOf(f.event), f.data))
  {
    StepSends(codec, d, f);
    StepCounts(codec, frames, d, f);
    assert (frames + [f])[..|frames|] == frames;
    hide NoCalls, Itself, DataStep, Started, Ended;
  }

  lemma StepCounts(codec: Codec, frames: seq<Frame>, d: Decoder, f: Frame)
    requires (d.model, d.tokensIn) == Started(codec, frames) && (d.stopReason, d.tokensOut) == Ended(codec, frames)
    ensures var e := DataStep(codec, d, KindOf(f.event), f.data);
            (e.model, e.tokensIn) == Started(codec, frames + [f]) &&
            (e.stopReason, e.tokensOut) == Ended(codec, frames + [f])
  {
    assert (frames + [f])[..|frames|] == frames;
  }

  lemma {:induction false} FramesTell(codec: Codec, frames: seq<Frame>)
    ensures Tells(codec, frames, Play(codec, INITIAL, Acts(frames)))
  {
    if frames != [] {
      var (front, last) := (frames[..|frames| - 1], frames[|frames| - 1]);
      hide Tells, Play, DataStep, Acts;
      FramesTell(codec, front);
      PlayFrame(codec, front, last);
      StepTells(codec, front, Play(codec, INITIAL, Acts(front)), last);
      assert frames == front + [last];
    }
  }

  /** Whatever the frames are, and however they are cut into chunks: but for the tool calls, the events sent
      are the errors and the pieces of text and thinking of the frames, in order; and the last has the
      model and input tokens of the last message start and what the message deltas end with. */
  lemma StreamSaysFrames(codec: Codec, frames: seq<Frame>, chunks: seq<string>)
    requires AllClean(frames) && Concat(chunks) == FramesText(frames)
    ensures var (events, start, end) := (Decode(codec, chunks), Started(codec, frames), Ended(codec, frames));
            events != [] && NoCalls(events[..|events| - 1]) == Themselves(codec, frames) &&
            events[|events| - 1] == Done(start.0, start.1, end.1, end.0)
  {
    LineByLineIsCompositional(Stepper(codec));
    ChunkIndependence(LineByLine(Stepper(codec)), LineState("", INITIAL), chunks);
    FramesSplit(frames);
    StepperPlaysFrames(codec);
    LinesPlayFrames(codec, Stepper(codec), frames);
    FramesTell(codec, frames);
    var d := Play(codec, INITIAL, Acts(frames));
    hide Play, NoCalls, Themselves, Started, Ended;
    assert (d.out + [DoneEvent(d)])[..|d.out|] == d.out;
  }
}
