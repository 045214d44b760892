/** The two agent loops: `run_tool_loop`, which waits for complete responses, and
    `handle_streaming`, which was written separately over streamed events.  Both grow a
    transcript of tool calls and tool results and send it back to the provider. */
module ToolLoops {
  import opened Prelude
  import opened Stream

  // ---------------------------------------------------------------------
  // Transcripts
  // ---------------------------------------------------------------------

  datatype Block =
    | Text(text: string)
    | Thinking(thinking: string)
    | ToolUse(id: string, name: string, input: Value)
    | ToolResult(toolUseId: string, content: string, isError: bool)
    | Other(value: Value)

  datatype Content = Plain(text: string) | Blocks(blocks: seq<Block>)

  datatype Message = Message(role: string, content: Content)

  datatype Output = Output(content: string, isError: bool)

  /** What the loops meet: the provider's turns, in both forms, and what each tool call returns.
      Tools are asked by position, call `k` of turn `i`, and given the call's tool name and input. */
  datatype World = World(
    turn: nat -> Result<ChatResponse, string>,
    stream: nat -> StreamTurn,
    tools: set<string>,
    run: (nat, nat, string, Value) -> Output)

  /** One streamed turn: its events, how many of them are received before the request future
      resolves (the rest are drained after it), and how the future resolves. */
  datatype StreamTurn = StreamTurn(events: seq<StreamEvent>, received: nat, result: Result<(), string>)

  /** The tool of that name, or the error that there is none. */
  function Execute(w: World, i: nat, k: nat, call: ToolCall): Output {
    if call.name in w.tools then w.run(i, k, call.name, call.input) else Output("unknown tool: " + call.name, true)
  }

  function UseBlock(call: ToolCall): Block { Block.ToolUse(call.id, call.name, call.input) }

  function UseBlocks(calls: seq<ToolCall>): (blocks: seq<Block>)
    ensures |blocks| == |calls| && forall k :: 0 <= k < |calls| ==> blocks[k] == UseBlock(calls[k])
  {
    seq(|calls|, k requires 0 <= k < |calls| => UseBlock(calls[k]))
  }

  function ResultBlock(w: World, i: nat, k: nat, call: ToolCall): Block {
    var out := Execute(w, i, k, call);
    ToolResult(call.id, out.content, out.isError)
  }

  function ResultBlocks(w: World, i: nat, calls: seq<ToolCall>): (blocks: seq<Block>)
    ensures |blocks| == |calls| && forall k :: 0 <= k < |calls| ==> blocks[k] == ResultBlock(w, i, k, calls[k])
  {
    seq(|calls|, k requires 0 <= k < |calls| => ResultBlock(w, i, k, calls[k]))
  }

  /** The two messages one tool turn adds. */
  function Exchange(w: World, i: nat, text: string, calls: seq<ToolCall>): seq<Message> {
    [Message("assistant", Blocks((if text != "" then [Text(text)] else []) + UseBlocks(calls))),
     Message("user", Blocks(ResultBlocks(w, i, calls)))]
  }

  // ---------------------------------------------------------------------
  // The loop over complete responses
  // ---------------------------------------------------------------------

  const MAX_ITERATIONS: nat := 25

  predicate WantsTools(stopReason: string, calls: seq<ToolCall>) { calls != [] && stopReason == "tool_use" }

  /** The transcripts sent from iteration `i` on, and what the loop returns. */
  function ToolRun(w: World, messages: seq<Message>, i: nat): (seq<seq<Message>>, Result<ChatResponse, string>)
    decreases MAX_ITERATIONS - i
  {
    match w.turn(i)
    case Err(e) => ([messages], Err(e))
    case Ok(r) =>
      if !WantsTools(r.stopReason, r.toolCalls) || i + 1 >= MAX_ITERATIONS then ([messages], Ok(r))
      else
        var (sent, result) := ToolRun(w, messages + Exchange(w, i, r.content, r.toolCalls), i + 1);
        ([messages] + sent, result)
  }

  /** The names of the tools called from iteration `i` on, in order and with repetitions. */
  function CalledRun(w: World, i: nat): seq<string>
    decreases MAX_ITERATIONS - i
  {
    if i >= MAX_ITERATIONS || w.turn(i).Err? || !WantsTools(w.turn(i).value.stopReason, w.turn(i).value.toolCalls)
    then []
    else Names(w.turn(i).value.toolCalls) + CalledRun(w, i + 1)
  }

  function Names(calls: seq<ToolCall>): (names: seq<string>)
    ensures |names| == |calls| && forall k :: 0 <= k < |calls| ==> names[k] == calls[k].name
  {
    seq(|calls|, k requires 0 <= k < |calls| => calls[k].name)
  }

  /** The assistant message of a tool turn: its text, if any, then its calls. */
  method AssistantMessage(text: string, calls: seq<ToolCall>) returns (m: Message)
    ensures m == Message("assistant", Blocks((if text != "" then [Text(text)] else []) + UseBlocks(calls)))
  {
    var content: seq<Block> := if text != "" then [Text(text)] else [];
    ghost var prefix := content;
    for k := 0 to |calls|
      invariant content == prefix + UseBlocks(calls)[..k]
    {
      content := content + [UseBlock(calls[k])];
    }
    assert UseBlocks(calls)[..|calls|] == UseBlocks(calls);
    m := Message("assistant", Blocks(content));
  }

  /** Executes the calls of a turn in order; the user message of their results, and their names. */
  method ExecuteCalls(w: World, i: nat, calls: seq<ToolCall>) returns (m: Message, names: seq<string>)
    ensures m == Message("user", Blocks(ResultBlocks(w, i, calls)))
    ensures names == Names(calls)
  {
    var results: seq<Block> := [];
    names := [];
    for k := 0 to |calls|
      invariant results == ResultBlocks(w, i, calls)[..k]
      invariant names == Names(calls)[..k]
    {
      names := names + [calls[k].name];
      var output := Execute(w, i, k, calls[k]);
      results := results + [ToolResult(calls[k].id, output.content, output.isError)];
    }
    assert ResultBlocks(w, i, calls)[..|calls|] == ResultBlocks(w, i, calls) && Names(calls)[..|calls|] == Names(calls);
    m := Message("user", Blocks(results));
  }

  lemma Sending<T>(sent: seq<T>, next: T, run: seq<T>)
    ensures |run| > 0 && run[0] == next ==> sent + run == sent + [next] + run[1..]
    ensures run == [next] ==> run[1..] == [] && sent + [next] + [] == sent + [next]
    ensures forall rest :: run == [next] + rest ==> run[1..] == rest
  {}

  lemma ExchangeIs(w: World, i: nat, messages: seq<Message>, text: string, calls: seq<ToolCall>)
    ensures messages + Exchange(w, i, text, calls) ==
            messages + [Message("assistant", Blocks((if text != "" then [Text(text)] else []) + UseBlocks(calls)))]
                     + [Message("user", Blocks(ResultBlocks(w, i, calls)))]
  {}

  lemma ToolRunStep(w: World, messages: seq<Message>, i: nat)
    ensures match w.turn(i)
            case Err(e) => ToolRun(w, messages, i) == ([messages], Err(e))
            case Ok(r) =>
              var next := ToolRun(w, messages + Exchange(w, i, r.content, r.toolCalls), i + 1);
              ToolRun(w, messages, i) ==
                if !WantsTools(r.stopReason, r.toolCalls) || i + 1 >= MAX_ITERATIONS then ([messages], Ok(r))
                else ([messages] + next.0, next.1)
  {
    hide Exchange, WantsTools;
  }

  // --- what the loop is to do, without reference to how it does it -----------

  predicate AsksForTools(r: Result<ChatResponse, string>) {
    r.Ok? && r.value.toolCalls != [] && r.value.stopReason == "tool_use"
  }

  /** The assistant message says the text, if any, and then the calls. */
  ghost predicate IsCallMessage(m: Message, text: string, calls: seq<ToolCall>) {
    m.role == "assistant" && m.content.Blocks? &&
    (var (blocks, lead) := (m.content.blocks, if text == "" then 0 else 1);
     |blocks| == lead + |calls| && (text != "" ==> blocks[0] == Block.Text(text)) &&
     AreCalls(blocks[lead..], calls))
  }

  ghost predicate AreCalls(blocks: seq<Block>, calls: seq<ToolCall>) {
    |blocks| == |calls| &&
    forall k :: 0 <= k < |calls| ==> blocks[k] == Block.ToolUse(calls[k].id, calls[k].name, calls[k].input)
  }

  /** The user message holds, for each call in order, its id and what its tool returned, or the error that
      there is no such tool. */
  ghost predicate IsResultMessage(w: World, i: nat, m: Message, calls: seq<ToolCall>) {
    m.role == "user" && m.content.Blocks? && |m.content.blocks| == |calls| &&
    forall k :: 0 <= k < |calls| ==> IsResult(w, i, k, m.content.blocks[k], calls[k])
  }

  predicate IsResult(w: World, i: nat, k: nat, b: Block, call: ToolCall) {
    b.ToolResult? && b.toolUseId == call.id &&
    if call.name in w.tools then
      var out := w.run(i, k, call.name, call.input); b.content == out.content && b.isError == out.isError
    else b.content == "unknown tool: " + call.name && b.isError
  }

  /** `after` is `before` and the two messages of a turn that called tools. */
  ghost predicate Extends(w: World, i: nat, before: seq<Message>, text: string, calls: seq<ToolCall>,
      after: seq<Message>)
  {
    |after| == |before| + 2 && after[..|before|] == before &&
    IsCallMessage(after[|before|], text, calls) && IsResultMessage(w, i, after[|before| + 1], calls)
  }

  /** The transcripts sent and the result of a loop over complete responses, from turn `i` on: every turn but
      the last asks for tools, and the next transcript is extended by its calls and their results; the last
      is the first that does not, or the 25th of all, and is the result. */
  ghost predicate IsToolRun(w: World, start: seq<Message>, i: nat, sent: seq<seq<Message>>,
      result: Result<ChatResponse, string>)
  {
    |sent| > 0 && sent[0] == start && i + |sent| <= 25 && result == w.turn(i + |sent| - 1) &&
    (AsksForTools(result) ==> i + |sent| == 25) &&
    forall k :: 0 <= k < |sent| - 1 ==> GoesOn(w, i, sent, k)
  }

  /** Turn `i + k`, the answer to transcript `k`, asks for tools, and the next transcript says so. */
  ghost predicate GoesOn(w: World, i: nat, sent: seq<seq<Message>>, k: nat)
    requires k + 1 < |sent|
  {
    AsksForTools(w.turn(i + k)) &&
    Extends(w, i + k, sent[k], w.turn(i + k).value.content, w.turn(i + k).value.toolCalls, sent[k + 1])
  }

  /** The names called in the first `n` turns, all of which ask for tools. */
  ghost predicate AreCalled(w: World, i: nat, n: nat, names: seq<string>)
    decreases n
  {
    if n == 0 then names == []
    else
      w.turn(i).Ok? &&
      (var calls := w.turn(i).value.toolCalls;
       |names| >= |calls| && (forall k :: 0 <= k < |calls| ==> names[k] == calls[k].name) &&
       AreCalled(w, i + 1, n - 1, names[|calls|..]))
  }

  lemma ExchangeExtends(w: World, i: nat, before: seq<Message>, text: string, calls: seq<ToolCall>)
    ensures Extends(w, i, before, text, calls, before + Exchange(w, i, text, calls))
  {
    CallMessageIs(w, i, text, calls);
    ResultMessageIs(w, i, text, calls);
    hide IsCallMessage, IsResultMessage;
    assert |Exchange(w, i, text, calls)| == 2;
    hide Exchange;
    var after := before + Exchange(w, i, text, calls);
    assert after[|before|] == Exchange(w, i, text, calls)[0] && after[|before| + 1] == Exchange(w, i, text, calls)[1];
  }

  lemma CallMessageIs(w: World, i: nat, text: string, calls: seq<ToolCall>)
    ensures IsCallMessage(Exchange(w, i, text, calls)[0], text, calls)
  {
    assert AreCalls(UseBlocks(calls), calls);
    hide ResultBlocks, UseBlocks, AreCalls;
    var prefix := if text != "" then [Text(text)] else [];
    assert (prefix + UseBlocks(calls))[|prefix|..] == UseBlocks(calls);
  }

  lemma ResultMessageIs(w: World, i: nat, text: string, calls: seq<ToolCall>)
    ensures IsResultMessage(w, i, Exchange(w, i, text, calls)[1], calls)
  {
    forall k | 0 <= k < |calls| ensures IsResult(w, i, k, ResultBlocks(w, i, calls)[k], calls[k]) {}
  }

  lemma {:induction false} ToolRunIs(w: World, messages: seq<Message>, i: nat)
    requires i < 25
    ensures IsToolRun(w, messages, i, ToolRun(w, messages, i).0, ToolRun(w, messages, i).1)
    decreases 25 - i
  {
    hide Exchange, Extends, WantsTools;
    ToolRunStep(w, messages, i);
    var (sent, result) := ToolRun(w, messages, i);
    WantsIsAsks(w.turn(i));
    if AsksForTools(w.turn(i)) && i + 1 < 25 {
      var r := w.turn(i).value;
      var next := messages + Exchange(w, i, r.content, r.toolCalls);
      ExchangeExtends(w, i, messages, r.content, r.toolCalls);
      ToolRunIs(w, next, i + 1);
      hide ToolRun;
      var rest := ToolRun(w, next, i + 1).0;
      forall k | 0 <= k < |sent| - 1 ensures GoesOn(w, i, sent, k) {
        if k > 0 {
          assert GoesOn(w, i + 1, rest, k - 1);
          assert sent[k] == rest[k - 1] && sent[k + 1] == rest[k];
        }
      }
      assert i + 1 + |rest| - 1 == i + |sent| - 1;
    }
  }

  lemma WantsIsAsks(r: Result<ChatResponse, string>)
    ensures AsksForTools(r) <==> r.Ok? && WantsTools(r.value.stopReason, r.value.toolCalls)
  {}

  /** The tools called are those of every turn that asks for some, the 25th included. */
  lemma {:induction false} CalledRunIs(w: World, messages: seq<Message>, i: nat)
    requires i < 25
    ensures var n := |ToolRun(w, messages, i).0|;
            n > 0 && AreCalled(w, i, if AsksForTools(w.turn(i + n - 1)) then n else n - 1, CalledRun(w, i))
    decreases 25 - i
  {
    hide Exchange, WantsTools, AreCalled;
    ToolRunStep(w, messages, i);
    CalledRunStep(w, i);
    WantsIsAsks(w.turn(i));
    NoneCalled(w, i);
    if AsksForTools(w.turn(i)) {
      var r := w.turn(i).value;
      var next := messages + Exchange(w, i, r.content, r.toolCalls);
      if i + 1 < 25 {
        CalledRunIs(w, next, i + 1);
        hide ToolRun, CalledRun;
        var n := |ToolRun(w, next, i + 1).0|;
        assert i + 1 + n - 1 == i + (n + 1) - 1;
        var m := if AsksForTools(w.turn(i + 1 + n - 1)) then n else n - 1;
        CalledOneMore(w, i, m, CalledRun(w, i + 1));
      } else {
        NoneCalled(w, i + 1);
        CalledOneMore(w, i, 0, []);
      }
    }
  }

  /** What the loop returns, from the first turn on. */
  ghost predicate IsLoop(w: World, start: seq<Message>, sent: seq<seq<Message>>,
      result: Result<ChatResponse, string>, called: seq<string>)
  {
    IsToolRun(w, start, 0, sent, result) &&
    AreCalled(w, 0, if AsksForTools(result) then |sent| else |sent| - 1, called)
  }

  lemma LoopIs(w: World, start: seq<Message>)
    ensures IsLoop(w, start, ToolRun(w, start, 0).0, ToolRun(w, start, 0).1, CalledRun(w, 0))
  {
    ToolRunIs(w, start, 0);
    CalledRunIs(w, start, 0);
  }

  lemma NoneCalled(w: World, i: nat)
    ensures AreCalled(w, i, 0, [])
  {}

  lemma CalledOneMore(w: World, i: nat, n: nat, names: seq<string>)
    requires w.turn(i).Ok? && AreCalled(w, i + 1, n, names)
    ensures AreCalled(w, i, n + 1, Names(w.turn(i).value.toolCalls) + names)
  {
    var calls := w.turn(i).value.toolCalls;
    assert (Names(calls) + names)[|calls|..] == names;
  }

  lemma CalledRunStep(w: World, i: nat)
    requires i < MAX_ITERATIONS
    ensures CalledRun(w, i) ==
            match w.turn(i)
            case Err(_) => []
            case Ok(r) => if WantsTools(r.stopReason, r.toolCalls) then Names(r.toolCalls) + CalledRun(w, i + 1) else []
    ensures CalledRun(w, MAX_ITERATIONS) == []
  {
    hide WantsTools, Names;
  }

  /** Runs the tool loop.  `sent` are the transcripts the provider received, in order. */
  method RunToolLoop(w: World, start: seq<Message>)
    returns (result: Result<ChatResponse, string>, calledTools: seq<string>, sent: seq<seq<Message>>)
    ensures (sent, result) == ToolRun(w, start, 0) && calledTools == CalledRun(w, 0)
    ensures IsLoop(w, start, sent, result, calledTools)
  {
    hide IsLoop, Exchange, WantsTools, Names, ToolRun, CalledRun, UseBlocks, ResultBlocks;
    LoopIs(w, start);
    var rawMessages := start;
    var lastResponse: Option<ChatResponse> := None;
    calledTools, sent := [], [];
    NothingAdded(ToolRun(w, start, 0).0);
    NothingAdded(CalledRun(w, 0));
    for i := 0 to MAX_ITERATIONS
      invariant i < MAX_ITERATIONS ==>
                  ToolRun(w, start, 0) == (sent + ToolRun(w, rawMessages, i).0, ToolRun(w, rawMessages, i).1)
      invariant i == MAX_ITERATIONS ==> lastResponse.Some? && ToolRun(w, start, 0) == (sent, Ok(lastResponse.value))
      invariant CalledRun(w, 0) == calledTools + CalledRun(w, i)
    {
      ToolRunStep(w, rawMessages, i);
      CalledRunStep(w, i);
      Sending(sent, rawMessages, ToolRun(w, rawMessages, i).0);
      sent := sent + [rawMessages];
      match w.turn(i) {
        case Err(e) => return Err(e), calledTools, sent;
        case Ok(response) =>
          if !WantsTools(response.stopReason, response.toolCalls) { return Ok(response), calledTools, sent; }
          var call := AssistantMessage(response.content, response.toolCalls);
          var answer, names := ExecuteCalls(w, i, response.toolCalls);
          Associative(calledTools, names, CalledRun(w, i + 1));
          calledTools := calledTools + names;
          ExchangeIs(w, i, rawMessages, response.content, response.toolCalls);
          rawMessages := rawMessages + [call] + [answer];
          lastResponse := Some(response);
      }
    }
    CalledRunStep(w, 0);
    NothingAdded(calledTools);
    return Ok(lastResponse.value), calledTools, sent;
  }

  // ---------------------------------------------------------------------
  // The loop over streamed events
  // ---------------------------------------------------------------------

  const MAX_ITERS: nat := 10

  /** What the streaming loop carries from turn to turn.  The final fields keep the values of the
      last `Done` event seen, of whatever turn. */
  datatype Carried = Carried(
    messages: seq<Message>, accumulated: string,
    finalModel: string, finalTokensIn: nat, finalTokensOut: nat, finalStop: string)

  datatype Taken = Taken(
    text: string, tools: seq<ToolCall>, accumulated: string,
    finalModel: string, finalTokensIn: nat, finalTokensOut: nat, finalStop: string)

  function TakeEvent(t: Taken, e: StreamEvent): Taken {
    match e
    case TextDelta(text) => t.(text := t.text + text, accumulated := t.accumulated + text)
    case ToolUse(id, name, input) => t.(tools := t.tools + [ToolCall(id, name, input)])
    case Done(model, tokensIn, tokensOut, stop) =>
      t.(finalModel := model, finalTokensIn := tokensIn, finalTokensOut := tokensOut, finalStop := stop)
    case _ => t
  }

  function TakeEvents(t: Taken, events: seq<StreamEvent>): Taken {
    if events == [] then t else TakeEvent(TakeEvents(t, events[..|events| - 1]), events[|events| - 1])
  }

  function ErrorIn(events: seq<StreamEvent>): Option<string> {
    if events == [] then None
    else if events[0].Error? then Some(events[0].message)
    else ErrorIn(events[1..])
  }

  function Opened(c: Carried): Taken {
    Taken("", [], c.accumulated, c.finalModel, c.finalTokensIn, c.finalTokensOut, c.finalStop)
  }

  function ReceivedCount(t: StreamTurn): nat { if t.received < |t.events| then t.received else |t.events| }

  /** One streamed turn: an error event received before the future resolves, or a failed future,
      ends the request; an error event drained afterwards is ignored. */
  function TakeTurn(c: Carried, t: StreamTurn): Result<Taken, string> {
    match ErrorIn(t.events[..ReceivedCount(t)])
    case Some(message) => Err(message)
    case None =>
      match t.result
      case Err(e) => Err(e)
      case Ok(_) => Ok(TakeEvents(Opened(c), t.events))
  }

  function Carry(c: Carried, t: Taken): Carried {
    Carried(c.messages, t.accumulated, t.finalModel, t.finalTokensIn, t.finalTokensOut, t.finalStop)
  }

  /** The transcripts sent from iteration `i` on, and what the loop ends with. */
  function StreamRun(w: World, c: Carried, i: nat): (seq<seq<Message>>, Result<Carried, string>)
    decreases MAX_ITERS - i
  {
    if i >= MAX_ITERS then ([], Ok(c))
    else
      match TakeTurn(c, w.stream(i))
      case Err(e) => ([c.messages], Err(e))
      case Ok(t) =>
        if !WantsTools(t.finalStop, t.tools) then ([c.messages], Ok(Carry(c, t)))
        else
          var (sent, result) := StreamRun(w, Next(w, c, i), i + 1);
          ([c.messages] + sent, result)
  }

  function Begin(start: seq<Message>): Carried { Carried(start, "", "", 0, 0, "") }

  lemma TakeOne(t: Taken, events: seq<StreamEvent>, e: StreamEvent)
    ensures TakeEvents(t, events + [e]) == TakeEvent(TakeEvents(t, events), e)
  {
    assert (events + [e])[..|events|] == events;
  }

  lemma {:induction false} ErrorInAppend(events: seq<StreamEvent>, more: seq<StreamEvent>)
    ensures ErrorIn(events + more) == if ErrorIn(events).Some? then ErrorIn(events) else ErrorIn(more)
  {
    if events == [] {
      assert events + more == more;
    } else {
      assert (events + more)[1..] == events[1..] + more;
      ErrorInAppend(events[1..], more);
    }
  }

  lemma NothingTaken(t: Taken)
    ensures TakeEvents(t, []) == t && ErrorIn([]).None?
  {}

  lemma ErrorInOne(e: StreamEvent)
    ensures ErrorIn([e]) == if e.Error? then Some(e.message) else None
  {}

  /** Receives one streamed turn: the events in arrival order, then the result of the request. */
  method ReceiveTurn(c: Carried, t: StreamTurn) returns (r: Result<Taken, string>)
    ensures r == TakeTurn(c, t)
  {
    hide TakeEvent, TakeEvents, ErrorIn;
    var n := ReceivedCount(t);
    var taken := Opened(c);
    NothingTaken(Opened(c));
    assert t.events[..0] == [];
    for j := 0 to n
      invariant taken == TakeEvents(Opened(c), t.events[..j])
      invariant ErrorIn(t.events[..j]).None?
    {
      assert t.events[..j] + [t.events[j]] == t.events[..j + 1];
      TakeOne(Opened(c), t.events[..j], t.events[j]);
      ErrorInAppend(t.events[..j], [t.events[j]]);
      ErrorInOne(t.events[j]);
      if t.events[j].Error? {
        assert t.events[..n] == t.events[..j + 1] + t.events[j + 1..n];
        ErrorInAppend(t.events[..j + 1], t.events[j + 1..n]);
        return Err(t.events[j].message);
      }
      taken := TakeEvent(taken, t.events[j]);
    }
    if t.result.Err? { return Err(t.result.error); }
    for j := n to |t.events|
      invariant taken == TakeEvents(Opened(c), t.events[..j])
    {
      assert t.events[..j] + [t.events[j]] == t.events[..j + 1];
      TakeOne(Opened(c), t.events[..j], t.events[j]);
      taken := TakeEvent(taken, t.events[j]);
    }
    assert t.events[..|t.events|] == t.events;
    r := Ok(taken);
  }

  lemma StreamRunStep(w: World, c: Carried, i: nat)
    requires i < MAX_ITERS
    ensures match TakeTurn(c, w.stream(i))
            case Err(e) => StreamRun(w, c, i) == ([c.messages], Err(e))
            case Ok(t) =>
              var next := StreamRun(w, Next(w, c, i), i + 1);
              StreamRun(w, c, i) ==
                if !WantsTools(t.finalStop, t.tools) then ([c.messages], Ok(Carry(c, t)))
                else ([c.messages] + next.0, next.1)
  {
    hide TakeTurn, WantsTools, Exchange;
  }

  // --- what the loop is to do, without reference to how it does it -----------

  /** What the last `Done` event says. */
  datatype Final = Final(model: string, tokensIn: nat, tokensOut: nat, stop: string)

  function LastDone(events: seq<StreamEvent>, before: Final): Final {
    if events == [] then before
    else
      var last := events[|events| - 1];
      if last.Done? then Final(last.model, last.tokensIn, last.tokensOut, last.stopReason)
      else LastDone(events[..|events| - 1], before)
  }

  /** What the last `Done` event of the first `n` turns says. */
  function FinalAt(w: World, n: nat): Final {
    if n == 0 then Final("", 0, 0, "") else LastDone(w.stream(n - 1).events, FinalAt(w, n - 1))
  }

  /** The text deltas of the first `n` turns, joined. */
  function SaidBy(w: World, n: nat): string {
    if n == 0 then "" else SaidBy(w, n - 1) + TextOf(w.stream(n - 1).events)
  }

  /** No error event is received before the request resolves, and then it has succeeded. */
  predicate Succeeds(t: StreamTurn) {
    t.result.Ok? && forall j :: 0 <= j < |t.events| && j < t.received ==> !t.events[j].Error?
  }

  /** The turn ends in this error: that of the first error event received, or else that of the request. */
  ghost predicate Fails(t: StreamTurn, e: string) {
    (exists j :: 0 <= j < |t.events| && j < t.received && IsErrorAt(t.events, j, e)) ||
    (t.result == Err(e) && forall j :: 0 <= j < |t.events| && j < t.received ==> !t.events[j].Error?)
  }

  /** The turn calls tools, and the last stop reason seen is to use them. */
  predicate AsksInStream(w: World, n: nat) {
    ToolsOf(w.stream(n).events) != [] && FinalAt(w, n + 1).stop == "tool_use"
  }

  /** Turn `i + k`, the answer to transcript `k`, asks for tools, and the next transcript says so. */
  ghost predicate StreamGoesOn(w: World, i: nat, sent: seq<seq<Message>>, k: nat)
    requires k + 1 < |sent|
  {
    Succeeds(w.stream(i + k)) && AsksInStream(w, i + k) &&
    Extends(w, i + k, sent[k], TextOf(w.stream(i + k).events), ToolsOf(w.stream(i + k).events), sent[k + 1])
  }

  /** The transcripts sent and the result of the streaming loop, from turn `i` on: every turn but the last
      asks for tools, and the next transcript is extended by its calls and their results; the last is the
      first that fails or does not ask, or the 10th of all. */
  ghost predicate IsStreamRun(w: World, start: seq<Message>, i: nat, sent: seq<seq<Message>>,
      result: Result<Carried, string>)
  {
    |sent| > 0 && sent[0] == start && i + |sent| <= 10 &&
    (forall k :: 0 <= k < |sent| - 1 ==> StreamGoesOn(w, i, sent, k)) &&
    StreamEnds(w, i + |sent| - 1, sent[|sent| - 1], result)
  }

  /** Ended by turn `n`, which answered `last`. */
  ghost predicate StreamEnds(w: World, n: nat, last: seq<Message>, result: Result<Carried, string>) {
    match result
    case Err(e) => Fails(w.stream(n), e)
    case Ok(c) =>
      Succeeds(w.stream(n)) && Holds(w, n + 1, c) &&
      if AsksInStream(w, n) then
        n == 9 && Extends(w, n, last, TextOf(w.stream(n).events), ToolsOf(w.stream(n).events), c.messages)
      else c.messages == last
  }

  /** The text and the final fields carried are those of the first `n` turns. */
  predicate Holds(w: World, n: nat, c: Carried) {
    c.accumulated == SaidBy(w, n) &&
    Final(c.finalModel, c.finalTokensIn, c.finalTokensOut, c.finalStop) == FinalAt(w, n)
  }

  lemma {:induction false} TakenFinal(t: Taken, events: seq<StreamEvent>)
    ensures var (u, f) := (TakeEvents(t, events),
                           LastDone(events, Final(t.finalModel, t.finalTokensIn, t.finalTokensOut, t.finalStop)));
            Final(u.finalModel, u.finalTokensIn, u.finalTokensOut, u.finalStop) == f
  {
    if events != [] { TakenFinal(t, events[..|events| - 1]); }
  }

  lemma {:induction false} ErrorInIs(events: seq<StreamEvent>)
    ensures ErrorIn(events).None? <==> forall j :: 0 <= j < |events| ==> !events[j].Error?
    ensures ErrorIn(events).Some? ==> exists j :: 0 <= j < |events| && IsErrorAt(events, j, ErrorIn(events).value)
  {
    if events != [] {
      if events[0].Error? {
        assert IsErrorAt(events, 0, events[0].message);
      } else {
        var rest := events[1..];
        ErrorInIs(rest);
        forall l | 1 <= l < |events| ensures events[l] == rest[l - 1] {}
        if ErrorIn(rest).Some? {
          var j :| 0 <= j < |rest| && IsErrorAt(rest, j, ErrorIn(rest).value);
          assert IsErrorAt(events, j + 1, ErrorIn(rest).value);
        }
      }
    }
  }

  predicate IsErrorAt(events: seq<StreamEvent>, j: nat, message: string)
    requires j < |events|
  {
    events[j] == Error(message) && forall l :: 0 <= l < j ==> !events[l].Error?
  }

  /** A turn fails or succeeds as the events received before the request resolves and its result say. */
  lemma TurnIs(c: Carried, t: StreamTurn)
    ensures match TakeTurn(c, t)
            case Err(e) => Fails(t, e)
            case Ok(_) => Succeeds(t)
  {
    hide TakeEvents;
    var got := t.events[..ReceivedCount(t)];
    ErrorInIs(got);
    if ErrorIn(got).Some? {
      var j :| 0 <= j < |got| && IsErrorAt(got, j, ErrorIn(got).value);
      assert forall l :: 0 <= l <= j ==> t.events[l] == got[l];
      assert IsErrorAt(t.events, j, ErrorIn(got).value);
    } else {
      assert forall l :: 0 <= l < |got| ==> t.events[l] == got[l];
    }
  }

  /** A turn that succeeds is taken whole: its text, its calls, and what is carried on. */
  lemma TurnTakes(w: World, c: Carried, i: nat)
    requires TakeTurn(c, w.stream(i)).Ok? && Holds(w, i, c)
    ensures var (t, events) := (TakeTurn(c, w.stream(i)).value, w.stream(i).events);
            t.text == TextOf(events) && t.tools == ToolsOf(events) && Holds(w, i + 1, Carry(c, t))
  {
    TakenText(Opened(c), w.stream(i).events);
    TakenFinal(Opened(c), w.stream(i).events);
    hide TakeEvents, TextOf, ToolsOf, LastDone, ErrorIn;
    assert "" + TextOf(w.stream(i).events) == TextOf(w.stream(i).events);
    assert [] + ToolsOf(w.stream(i).events) == ToolsOf(w.stream(i).events);
  }

  lemma {:induction false} StreamRunIs(w: World, c: Carried, i: nat)
    requires i < 10 && Holds(w, i, c)
    ensures IsStreamRun(w, c.messages, i, StreamRun(w, c, i).0, StreamRun(w, c, i).1)
    decreases 10 - i
  {
    StreamRunStep(w, c, i);
    TurnIs(c, w.stream(i));
    var (sent, result) := StreamRun(w, c, i);
    hide TakeTurn, Exchange, Extends, Fails, Succeeds, FinalAt, SaidBy, TextOf, ToolsOf;
    if TakeTurn(c, w.stream(i)).Ok? {
      var t := TakeTurn(c, w.stream(i)).value;
      TurnTakes(w, c, i);
      if WantsTools(t.finalStop, t.tools) {
        var next := Next(w, c, i);
        ExchangeExtends(w, i, c.messages, t.text, t.tools);
        if i + 1 < 10 {
          StreamRunIs(w, next, i + 1);
          StreamGoesOnFrom(w, c, i, t);
        } else {
          NothingSentAfter(w, next);
          assert StreamRun(w, next, 10) == ([], Ok(next));
        }
      }
    }
  }

  lemma StreamGoesOnFrom(w: World, c: Carried, i: nat, t: Taken)
    requires i + 1 < 10 && TakeTurn(c, w.stream(i)) == Ok(t)
    requires Succeeds(w.stream(i)) && AsksInStream(w, i)
    requires var next := Next(w, c, i);
             Extends(w, i, c.messages, TextOf(w.stream(i).events), ToolsOf(w.stream(i).events), next.messages) &&
             StreamRun(w, c, i) == ([c.messages] + StreamRun(w, next, i + 1).0, StreamRun(w, next, i + 1).1) &&
             IsStreamRun(w, next.messages, i + 1, StreamRun(w, next, i + 1).0, StreamRun(w, next, i + 1).1)
    ensures IsStreamRun(w, c.messages, i, StreamRun(w, c, i).0, StreamRun(w, c, i).1)
  {
    hide StreamRun, TakeTurn, Exchange, Extends, Succeeds, AsksInStream, StreamEnds, TextOf, ToolsOf, Next;
    var (sent, rest) := (StreamRun(w, c, i).0, StreamRun(w, Next(w, c, i), i + 1).0);
    forall k | 0 <= k < |sent| - 1 ensures StreamGoesOn(w, i, sent, k) {
      if k > 0 {
        assert StreamGoesOn(w, i + 1, rest, k - 1);
        assert sent[k] == rest[k - 1] && sent[k + 1] == rest[k];
      }
    }
    assert i + 1 + |rest| - 1 == i + |sent| - 1;
  }

  /** Runs the streaming loop.  `sent` are the transcripts the provider received, in order. */
  method HandleStreaming(w: World, start: seq<Message>)
    returns (result: Result<Carried, string>, sent: seq<seq<Message>>)
    ensures (sent, result) == StreamRun(w, Begin(start), 0)
    ensures IsStreamRun(w, start, 0, sent, result)
  {
    hide IsStreamRun;
    assert Holds(w, 0, Begin(start));
    StreamRunIs(w, Begin(start), 0);
    var c := Begin(start);
    sent := [];
    NothingAdded(StreamRun(w, c, 0).0);
    for i := 0 to MAX_ITERS
      invariant StreamRun(w, Begin(start), 0) == (sent + StreamRun(w, c, i).0, StreamRun(w, c, i).1)
    {
      hide TakeTurn, Exchange, WantsTools, StreamRun, UseBlocks, ResultBlocks, Names;
      StreamRunStep(w, c, i);
      Sending(sent, c.messages, StreamRun(w, c, i).0);
      sent := sent + [c.messages];
      var turn := ReceiveTurn(c, w.stream(i));
      if turn.Err? { return Err(turn.error), sent; }
      var taken := turn.value;
      if !WantsTools(taken.finalStop, taken.tools) { return Ok(Carry(c, taken)), sent; }
      var call := AssistantMessage(taken.text, taken.tools);
      var answer, names := ExecuteCalls(w, i, taken.tools);
      ExchangeIs(w, i, c.messages, taken.text, taken.tools);
      c := Carry(c, taken).(messages := c.messages + [call] + [answer]);
    }
    assert StreamRun(w, c, MAX_ITERS) == ([], Ok(c));
    NothingAdded(sent);
    result := Ok(c);
  }

  // ---------------------------------------------------------------------
  // The two loops agree
  // ---------------------------------------------------------------------

  lemma {:induction false} TakenText(t: Taken, events: seq<StreamEvent>)
    ensures var u := TakeEvents(t, events);
            u.text == t.text + TextOf(events) && u.tools == t.tools + ToolsOf(events) &&
            u.accumulated == t.accumulated + TextOf(events)
  {
    if events != [] {
      var (front, last) := (events[..|events| - 1], events[|events| - 1]);
      TakenText(t, front);
      if last.TextDelta? {
        assert t.text + TextOf(front) + last.text == t.text + (TextOf(front) + last.text);
        assert t.accumulated + TextOf(front) + last.text == t.accumulated + (TextOf(front) + last.text);
      }
    }
  }

  lemma {:induction false} NoErrorReceived(events: seq<StreamEvent>, n: nat)
    requires n <= |events| && forall i :: 0 <= i < |events| ==> !events[i].Error?
    ensures ErrorIn(events[..n]) == None
  {
    if n > 0 {
      assert events[..n][1..] == events[1..][..n - 1];
      NoErrorReceived(events[1..], n - 1);
    }
  }

  lemma {:induction false} NoEndIsNoError(events: seq<StreamEvent>)
    requires NoEnd(events)
    ensures forall i :: 0 <= i < |events| ==> !events[i].Error?
  {
    if events != [] { NoEndIsNoError(events[..|events| - 1]); }
  }

  /** The turns of the two loops are the same: a streamed turn says what the complete response
      says, or both requests fail alike before any event. */
  ghost predicate SameTurn(r: Result<ChatResponse, string>, t: StreamTurn) {
    match r
    case Ok(response) => t.result.Ok? && Says(t.events, response)
    case Err(e) => t.result == Err(e) && t.events == []
  }

  /** A streamed turn yields the text, the calls and the final fields of the complete response,
      wherever the request future resolved among its events. */
  lemma TurnsAgree(c: Carried, r: ChatResponse, t: StreamTurn)
    requires SameTurn(Ok(r), t)
    ensures TakeTurn(c, t) ==
            Ok(Taken(r.content, r.toolCalls, c.accumulated + r.content, r.model, r.tokensIn, r.tokensOut, r.stopReason))
  {
    hide TextOf, ToolsOf;
    var n := |t.events| - 1;
    NoEndIsNoError(t.events[..n]);
    forall i | 0 <= i < |t.events| ensures !t.events[i].Error? { if i < n { assert t.events[..n][i] == t.events[i]; } }
    NoErrorReceived(t.events, ReceivedCount(t));
    TakenText(Opened(c), t.events);
    assert "" + r.content == r.content && [] + r.toolCalls == r.toolCalls;
  }

  ghost predicate SameTurns(w: World) { forall i: nat :: i < MAX_ITERS ==> SameTurn(w.turn(i), w.stream(i)) }

  function Take<T>(s: seq<T>, n: nat): seq<T> { if n <= |s| then s[..n] else s }

  lemma TakeFirst<T>(x: T, rest: seq<T>, n: nat)
    ensures Take([x] + rest, n + 1) == [x] + Take(rest, n) && Take(rest, 0) == []
  {
  }

  predicate Wants(w: World, i: nat) {
    w.turn(i).Ok? && WantsTools(w.turn(i).value.stopReason, w.turn(i).value.toolCalls)
  }

  /** One turn of each loop: both stop, or both go on with the same transcript. */
  lemma SameStep(w: World, c: Carried, i: nat)
    requires SameTurn(w.turn(i), w.stream(i)) && i < MAX_ITERS
    ensures Wants(w, i) ==>
              TakeTurn(c, w.stream(i)).Ok? &&
              StreamRun(w, c, i).0 == [c.messages] + StreamRun(w, Next(w, c, i), i + 1).0 &&
              ToolRun(w, c.messages, i).0 == [c.messages] + ToolRun(w, Next(w, c, i).messages, i + 1).0
    ensures !Wants(w, i) ==> StreamRun(w, c, i).0 == [c.messages] && ToolRun(w, c.messages, i).0 == [c.messages]
  {
    if w.turn(i).Ok? { TurnsAgree(c, w.turn(i).value, w.stream(i)); }
  }

  lemma NothingSentAfter(w: World, c: Carried)
    ensures StreamRun(w, c, MAX_ITERS).0 == []
  {}

  lemma {:induction false} SentAgree(w: World, c: Carried, i: nat)
    requires SameTurns(w) && i < MAX_ITERS
    ensures StreamRun(w, c, i).0 == Take(ToolRun(w, c.messages, i).0, MAX_ITERS - i)
    decreases MAX_ITERS - i
  {
    hide ToolRun, StreamRun, TakeTurn, Exchange, WantsTools, Wants;
    SameStep(w, c, i);
    if Wants(w, i) {
      var next := Next(w, c, i);
      TakeFirst(c.messages, ToolRun(w, next.messages, i + 1).0, MAX_ITERS - i - 1);
      if i + 1 < MAX_ITERS { SentAgree(w, next, i + 1); } else { NothingSentAfter(w, next); }
    }
  }

  /** What the streaming loop carries on after a tool turn. */
  function Next(w: World, c: Carried, i: nat): Carried
    requires TakeTurn(c, w.stream(i)).Ok?
  {
    var t := TakeTurn(c, w.stream(i)).value;
    Carry(c, t).(messages := c.messages + Exchange(w, i, t.text, t.tools))
  }

  function TextOfTurn(w: World, i: nat): string { if w.turn(i).Ok? then w.turn(i).value.content else "" }

  /** The texts of the `n` turns from turn `i` on, joined. */
  function Texts(w: World, i: nat, n: nat): string
    decreases n
  {
    if n == 0 then "" else TextOfTurn(w, i) + Texts(w, i + 1, n - 1)
  }

  /** The streaming loop ends as the other one does: its final fields are those of the final
      response, and the text it accumulated is `said`. */
  ghost predicate EndsAlike(s: Result<Carried, string>, r: Result<ChatResponse, string>, said: string) {
    match r
    case Err(e) => s == Err(e)
    case Ok(response) =>
      s.Ok? && s.value.finalModel == response.model && s.value.finalTokensIn == response.tokensIn &&
      s.value.finalTokensOut == response.tokensOut && s.value.finalStop == response.stopReason &&
      s.value.accumulated == said
  }

  /** The text of one more turn, after what was said before. */
  lemma OneMoreText(w: World, i: nat, n: nat, before: string)
    ensures Texts(w, i + 1, 0) == ""
    ensures before + Texts(w, i, n + 1) == before + TextOfTurn(w, i) + Texts(w, i + 1, n)
  {
    Associative(before, TextOfTurn(w, i), Texts(w, i + 1, n));
  }

  lemma FailuresAgree(c: Carried, e: string, t: StreamTurn)
    requires SameTurn(Err(e), t)
    ensures TakeTurn(c, t) == Err(e)
  {}

  lemma {:induction false} EndsAgree(w: World, c: Carried, i: nat)
    requires SameTurns(w) && i < MAX_ITERS && |ToolRun(w, c.messages, i).0| <= MAX_ITERS - i
    ensures EndsAlike(StreamRun(w, c, i).1, ToolRun(w, c.messages, i).1,
                      c.accumulated + Texts(w, i, |ToolRun(w, c.messages, i).0|))
    decreases MAX_ITERS - i
  {
    hide Exchange, WantsTools, Texts, TakeTurn, Says;
    assert SameTurn(w.turn(i), w.stream(i));
    ToolRunStep(w, c.messages, i);
    StreamRunStep(w, c, i);
    if w.turn(i).Ok? {
      var r := w.turn(i).value;
      TurnsAgree(c, r, w.stream(i));
      if WantsTools(r.stopReason, r.toolCalls) {
        var next := Next(w, c, i);
        FirstIsOwn(w, next.messages, i + 1);
        OneMoreText(w, i, |ToolRun(w, next.messages, i + 1).0|, c.accumulated);
        hide ToolRun, StreamRun;
        if i + 1 < MAX_ITERS { EndsAgree(w, next, i + 1); }
      } else {
        OneMoreText(w, i, 0, c.accumulated);
        NothingAdded(c.accumulated + r.content);
      }
    } else {
      FailuresAgree(c, w.turn(i).error, w.stream(i));
    }
  }

  lemma FirstIsOwn(w: World, messages: seq<Message>, i: nat)
    ensures |ToolRun(w, messages, i).0| >= 1 && ToolRun(w, messages, i).0[0] == messages
  {
  }

  /** Given the same turns and the same tool results, the two loops send the provider the same
      transcripts, up to the shorter of their iteration limits; and when the longer-running loop
      stops within that limit, both end alike: the same error, or the same final response, the
      streaming loop's text being that of all the turns joined. */
  lemma LoopsSendTheSame(w: World, start: seq<Message>)
    requires SameTurns(w)
    ensures StreamRun(w, Begin(start), 0).0 == Take(ToolRun(w, start, 0).0, MAX_ITERS)
    ensures |ToolRun(w, start, 0).0| <= MAX_ITERS ==>
              EndsAlike(StreamRun(w, Begin(start), 0).1, ToolRun(w, start, 0).1, Texts(w, 0, |ToolRun(w, start, 0).0|))
  {
    SentAgree(w, Begin(start), 0);
    if |ToolRun(w, start, 0).0| <= MAX_ITERS {
      EndsAgree(w, Begin(start), 0);
      NothingAdded(Texts(w, 0, |ToolRun(w, start, 0).0|));
    }
  }

  // --- the stop reason the streaming loop looks at ---------------------------

  lemma {:induction false} StopIsLastDone(t: Taken, u: Taken, events: seq<StreamEvent>)
    ensures (exists i :: 0 <= i < |events| && events[i].Done?) ==>
              TakeEvents(t, events).finalStop == TakeEvents(u, events).finalStop
    ensures !(exists i :: 0 <= i < |events| && events[i].Done?) ==> TakeEvents(t, events).finalStop == t.finalStop
  {
    if events != [] {
      var (front, last) := (events[..|events| - 1], events[|events| - 1]);
      StopIsLastDone(t, u, front);
      assert forall i :: 0 <= i < |front| ==> front[i] == events[i];
    }
  }

  /** The stop reason that decides whether a turn's tools run does not depend on earlier turns
      exactly when the turn has a `Done` event; a turn that was cut off (an error event drained after
      the request resolved) is judged by the previous turn's stop reason. */
  lemma StopReasonIsThisTurns(events: seq<StreamEvent>)
    ensures (forall c, d :: TakeEvents(Opened(c), events).finalStop == TakeEvents(Opened(d), events).finalStop) <==>
            exists i :: 0 <= i < |events| && events[i].Done?
  {
    if exists i :: 0 <= i < |events| && events[i].Done? {
      forall c, d ensures TakeEvents(Opened(c), events).finalStop == TakeEvents(Opened(d), events).finalStop {
        StopIsLastDone(Opened(c), Opened(d), events);
      }
    } else {
      var (c, d) := (Begin([]), Begin([]).(finalStop := "tool_use"));
      StopIsLastDone(Opened(c), Opened(d), events);
      StopIsLastDone(Opened(d), Opened(c), events);
      assert TakeEvents(Opened(c), events).finalStop != TakeEvents(Opened(d), events).finalStop;
    }
  }

  // ---------------------------------------------------------------------
  // Every transcript pairs tool calls with their results
  // ---------------------------------------------------------------------

  function UseIds(blocks: seq<Block>): seq<string> {
    if blocks == [] then []
    else UseIds(blocks[..|blocks| - 1]) + (var b := blocks[|blocks| - 1]; if b.ToolUse? then [b.id] else [])
  }

  function ResultIds(blocks: seq<Block>): seq<string> {
    if blocks == [] then []
    else ResultIds(blocks[..|blocks| - 1]) +
         (var b := blocks[|blocks| - 1]; if b.ToolResult? then [b.toolUseId] else [])
  }

  /** An assistant message with tool calls, then a user message with their results in order. */
  predicate IsExchange(call: Message, answer: Message) {
    call.role == "assistant" && call.content.Blocks? && answer.role == "user" && answer.content.Blocks? &&
    UseIds(call.content.blocks) != [] && UseIds(call.content.blocks) == ResultIds(answer.content.blocks)
  }

  /** `messages` are `start` followed by exchanges. */
  predicate Paired(start: seq<Message>, messages: seq<Message>) {
    messages == start ||
    (|messages| >= 2 && IsExchange(messages[|messages| - 2], messages[|messages| - 1]) &&
     Paired(start, messages[..|messages| - 2]))
  }

  lemma UseIdsAppend(blocks: seq<Block>, b: Block)
    ensures UseIds(blocks + [b]) == UseIds(blocks) + (if b.ToolUse? then [b.id] else [])
  {
    assert (blocks + [b])[..|blocks|] == blocks;
  }

  lemma {:induction false} UseIdsOf(prefix: seq<Block>, calls: seq<ToolCall>)
    requires UseIds(prefix) == []
    ensures UseIds(prefix + UseBlocks(calls)) == CallIds(calls)
  {
    if calls == [] {
      assert prefix + UseBlocks(calls) == prefix;
    } else {
      var (front, last) := (calls[..|calls| - 1], calls[|calls| - 1]);
      UseIdsOf(prefix, front);
      UseIdsAppend(prefix + UseBlocks(front), UseBlock(last));
      assert prefix + UseBlocks(calls) == prefix + UseBlocks(front) + [UseBlock(last)];
    }
  }

  function CallIds(calls: seq<ToolCall>): seq<string> {
    if calls == [] then [] else CallIds(calls[..|calls| - 1]) + [calls[|calls| - 1].id]
  }

  lemma {:induction false} ResultIdsOf(w: World, i: nat, calls: seq<ToolCall>)
    ensures ResultIds(ResultBlocks(w, i, calls)) == CallIds(calls)
  {
    if calls != [] {
      ResultIdsOf(w, i, calls[..|calls| - 1]);
      assert ResultBlocks(w, i, calls)[..|calls| - 1] == ResultBlocks(w, i, calls[..|calls| - 1]);
    }
  }

  lemma ExchangeIsPaired(w: World, i: nat, text: string, calls: seq<ToolCall>,
      start: seq<Message>, messages: seq<Message>)
    requires calls != [] && Paired(start, messages)
    ensures Paired(start, messages + Exchange(w, i, text, calls))
  {
    var more := messages + Exchange(w, i, text, calls);
    var prefix := if text != "" then [Text(text)] else [];
    assert prefix != [] ==> prefix[..0] == [];
    UseIdsOf(prefix, calls);
    ResultIdsOf(w, i, calls);
    assert more[..|more| - 2] == messages;
  }

  lemma {:induction false} SentIsPaired(w: World, start: seq<Message>, messages: seq<Message>, i: nat)
    requires Paired(start, messages)
    ensures forall k :: 0 <= k < |ToolRun(w, messages, i).0| ==> Paired(start, ToolRun(w, messages, i).0[k])
    decreases MAX_ITERATIONS - i
  {
    var sent := ToolRun(w, messages, i).0;
    if w.turn(i).Ok? {
      var r := w.turn(i).value;
      if WantsTools(r.stopReason, r.toolCalls) && i + 1 < MAX_ITERATIONS {
        ExchangeIsPaired(w, i, r.content, r.toolCalls, start, messages);
        SentIsPaired(w, start, messages + Exchange(w, i, r.content, r.toolCalls), i + 1);
      }
    }
  }

  /** The same of the streaming loop, with no assumption about its events. */
  lemma {:induction false} StreamSentIsPaired(w: World, start: seq<Message>, c: Carried, i: nat)
    requires Paired(start, c.messages)
    ensures forall k :: 0 <= k < |StreamRun(w, c, i).0| ==> Paired(start, StreamRun(w, c, i).0[k])
    decreases MAX_ITERS - i
  {
    hide TakeTurn, Exchange, Paired;
    if i < MAX_ITERS { StreamRunStep(w, c, i); }
    if i < MAX_ITERS && TakeTurn(c, w.stream(i)).Ok? {
      var t := TakeTurn(c, w.stream(i)).value;
      if WantsTools(t.finalStop, t.tools) {
        hide StreamRun;
        ExchangeIsPaired(w, i, t.text, t.tools, start, c.messages);
        StreamSentIsPaired(w, start, Next(w, c, i), i + 1);
      }
    }
  }

  // ---------------------------------------------------------------------
  // Stripping thinking blocks
  // ---------------------------------------------------------------------

  function WithoutThinking(blocks: seq<Block>): seq<Block> {
    if blocks == [] then []
    else
      var (kept, last) := (WithoutThinking(blocks[..|blocks| - 1]), blocks[|blocks| - 1]);
      if last.Thinking? then kept else kept + [last]
  }

  /** Only assistant messages made of blocks are touched. */
  function Strip(m: Message): Message {
    if m.role == "assistant" && m.content.Blocks?
    then m.(content := Blocks(WithoutThinking(m.content.blocks)))
    else m
  }

  function StripAll(messages: seq<Message>): (r: seq<Message>)
    ensures |r| == |messages| && forall i :: 0 <= i < |messages| ==> r[i] == Strip(messages[i])
  {
    seq(|messages|, i requires 0 <= i < |messages| => Strip(messages[i]))
  }

  /** Removes the thinking blocks of every assistant message, in place. */
  method StripThinkingBlocks(messages: array<Message>)
    modifies messages
    ensures messages[..] == StripAll(old(messages[..]))
  {
    for i := 0 to messages.Length
      invariant forall j :: 0 <= j < i ==> messages[j] == Strip(old(messages[j]))
      invariant forall j :: i <= j < messages.Length ==> messages[j] == old(messages[j])
    {
      var m := messages[i];
      if m.role != "assistant" || m.content.Plain? { continue; }
      var blocks := m.content.blocks;
      var filtered: seq<Block> := [];
      for k := 0 to |blocks|
        invariant filtered == WithoutThinking(blocks[..k])
      {
        assert blocks[..k + 1][..k] == blocks[..k];
        if !blocks[k].Thinking? { filtered := filtered + [blocks[k]]; }
      }
      assert blocks[..|blocks|] == blocks;
      messages[i] := m.(content := Blocks(filtered));
    }
  }

  lemma {:induction false} StripKeepsUseIds(blocks: seq<Block>)
    ensures UseIds(WithoutThinking(blocks)) == UseIds(blocks)
  {
    if blocks != [] {
      var (front, last) := (blocks[..|blocks| - 1], blocks[|blocks| - 1]);
      StripKeepsUseIds(front);
      UseIdsAppend(WithoutThinking(front), last);
    }
  }

  /** Stripping leaves the blocks that are not thinking, in their order, and nothing else. */
  lemma {:induction false} StripRemovesThinking(blocks: seq<Block>) returns (at: seq<nat>)
    ensures Selects(blocks, at, WithoutThinking(blocks))
    ensures forall i: nat :: i in at <==> i < |blocks| && !blocks[i].Thinking?
  {
    at := [];
    if blocks != [] {
      var (front, last) := (blocks[..|blocks| - 1], blocks[|blocks| - 1]);
      at := StripRemovesThinking(front);
      SelectsOneMore(front, at, WithoutThinking(front), last);
      assert blocks == front + [last];
      if !last.Thinking? { at := at + [|front|]; }
    }
  }

  /** Stripping a transcript keeps every call paired with its result. */
  lemma {:induction false} StripKeepsPairing(start: seq<Message>, messages: seq<Message>)
    requires Paired(start, messages)
    ensures Paired(StripAll(start), StripAll(messages))
  {
    if messages != start {
      var n := |messages| - 2;
      StripKeepsPairing(start, messages[..n]);
      StripKeepsUseIds(messages[n].content.blocks);
      assert StripAll(messages)[..n] == StripAll(messages[..n]);
    }
  }
}
