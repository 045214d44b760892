/** The Ollama streaming decoder: one JSON object per line. */
module OllamaStream {
  import opened Prelude
  import opened Stream
  import opened LineBuffer
  import opened Text

  datatype Reply = Reply(
    model: string, content: string, done: bool, doneReason: Option<string>,
    promptEvalCount: Option<nat>, evalCount: Option<nat>)

  /** How the JSON library reads a line; `None` where it reports an error. */
  type Codec = string -> Option<Reply>

  datatype Decoder = Decoder(model: string, tokensIn: nat, tokensOut: nat, stopReason: string, out: seq<StreamEvent>)

  const INITIAL: Decoder := Decoder("", 0, 0, "", [])

  function OrZero(n: Option<nat>): nat { if n.Some? then n.value else 0 }

  function ReplyStep(d: Decoder, r: Reply): Decoder {
    var named := if d.model == "" then d.(model := r.model) else d;
    if r.done then
      named.(tokensIn := OrZero(r.promptEvalCount), tokensOut := OrZero(r.evalCount),
             stopReason := if r.doneReason.Some? then r.doneReason.value else "stop")
    else if r.content != "" then named.(out := named.out + [TextDelta(r.content)])
    else named
  }

  function LineStep(codec: Codec, d: Decoder, line: string): Decoder {
    var trimmed := Trim(line);
    if trimmed == "" then d
    else match codec(trimmed)
         case Some(r) => ReplyStep(d, r)
         case None => d
  }

  function Stepper(codec: Codec): (Decoder, string) -> Decoder {
    (d, line) => LineStep(codec, d, line)
  }

  function Decode(codec: Codec, chunks: seq<string>): seq<StreamEvent> {
    var d := Feed(LineByLine(Stepper(codec)), INITIAL, chunks).0;
    d.out + [Done(d.model, d.tokensIn, d.tokensOut, d.stopReason)]
  }

  /** However the body is cut into chunks, the events are those of the body in one chunk. */
  lemma ChunkingIsInvisible(codec: Codec, chunks: seq<string>)
    ensures Decode(codec, chunks) == Decode(codec, [Concat(chunks)])
  {
    LineByLineIsCompositional(Stepper(codec));
    ChunkIndependence(LineByLine(Stepper(codec)), INITIAL, chunks);
    ChunkIndependence(LineByLine(Stepper(codec)), INITIAL, [Concat(chunks)]);
    assert Concat([Concat(chunks)]) == Concat(chunks);
  }

  // ---------------------------------------------------------------------
  // What a body says, without reference to the decoder
  // ---------------------------------------------------------------------

  /** The replies read from some lines: blank lines and those that do not decode are skipped. */
  function Replies(codec: Codec, lines: seq<string>): seq<Reply> {
    if lines == [] then []
    else
      var (front, line) := (Replies(codec, lines[..|lines| - 1]), Trim(lines[|lines| - 1]));
      if line != "" && codec(line).Some? then front + [codec(line).value] else front
  }

  /** The replies in a whole body; an unfinished last line is none. */
  function BodyReplies(codec: Codec, chunks: seq<string>): seq<Reply> {
    Replies(codec, SplitLines(Concat(chunks)).complete)
  }

  /** The contents of the replies that are not done, joined. */
  function Contents(replies: seq<Reply>): string {
    if replies == [] then ""
    else
      var last := replies[|replies| - 1];
      Contents(replies[..|replies| - 1]) + (if last.done then "" else last.content)
  }

  /** The first model name that is not empty, if any. */
  ghost predicate IsModel(replies: seq<Reply>, model: string) {
    (model == "" && forall i :: 0 <= i < |replies| ==> replies[i].model == "") ||
    (model != "" && exists i :: 0 <= i < |replies| && replies[i].model == model &&
                                forall j :: 0 <= j < i ==> replies[j].model == "")
  }

  /** The counts and the reason of the last reply that is done: a missing count is 0, a missing reason
      "stop"; nothing at all when none is done. */
  ghost predicate IsEnd(replies: seq<Reply>, tokensIn: nat, tokensOut: nat, reason: string) {
    ((tokensIn, tokensOut, reason) == (0, 0, "") && forall i :: 0 <= i < |replies| ==> !replies[i].done) ||
    exists i :: 0 <= i < |replies| && IsEndOf(replies[i], tokensIn, tokensOut, reason) &&
                forall j :: i < j < |replies| ==> !replies[j].done
  }

  predicate IsEndOf(r: Reply, tokensIn: nat, tokensOut: nat, reason: string) {
    r.done && tokensIn == (if r.promptEvalCount.Some? then r.promptEvalCount.value else 0) &&
    tokensOut == (if r.evalCount.Some? then r.evalCount.value else 0) &&
    reason == if r.doneReason.Some? then r.doneReason.value else "stop"
  }

  /** Only text deltas, none empty, and together they say the contents. */
  ghost predicate SaysContents(replies: seq<Reply>, events: seq<StreamEvent>) {
    TextOf(events) == Contents(replies) &&
    forall e :: e in events ==> e.TextDelta? && e.text != ""
  }

  /** The events of a body that arrived whole. */
  ghost predicate SaysReplies(replies: seq<Reply>, events: seq<StreamEvent>) {
    events != [] &&
    var (deltas, last) := (events[..|events| - 1], events[|events| - 1]);
    SaysContents(replies, deltas) && last.Done? && IsModel(replies, last.model) &&
    IsEnd(replies, last.tokensIn, last.tokensOut, last.stopReason)
  }

  ghost predicate Tells(replies: seq<Reply>, d: Decoder) {
    SaysContents(replies, d.out) && IsModel(replies, d.model) && IsEnd(replies, d.tokensIn, d.tokensOut, d.stopReason)
  }

  lemma ContentsOne(replies: seq<Reply>, r: Reply)
    ensures Contents(replies + [r]) == Contents(replies) + (if r.done then "" else r.content)
  {
    assert (replies + [r])[..|replies|] == replies;
  }

  lemma ContentsTold(replies: seq<Reply>, r: Reply, d: Decoder)
    requires SaysContents(replies, d.out)
    ensures SaysContents(replies + [r], ReplyStep(d, r).out)
  {
    ContentsOne(replies, r);
    Appended(d.out, TextDelta(r.content));
    NothingAdded(Contents(replies));
  }

  lemma ModelTold(replies: seq<Reply>, r: Reply, d: Decoder)
    requires IsModel(replies, d.model)
    ensures IsModel(replies + [r], ReplyStep(d, r).model)
  {
    var more := replies + [r];
    assert forall i :: 0 <= i < |replies| ==> more[i] == replies[i];
    assert more[|replies|] == r;
  }

  lemma EndTold(replies: seq<Reply>, r: Reply, d: Decoder)
    requires IsEnd(replies, d.tokensIn, d.tokensOut, d.stopReason)
    ensures var e := ReplyStep(d, r); IsEnd(replies + [r], e.tokensIn, e.tokensOut, e.stopReason)
  {
    var more := replies + [r];
    assert forall i :: 0 <= i < |replies| ==> more[i] == replies[i];
    assert more[|replies|] == r;
  }

  lemma LineTold(codec: Codec, lines: seq<string>, d: Decoder, line: string)
    requires Tells(Replies(codec, lines), d)
    ensures Tells(Replies(codec, lines + [line]), LineStep(codec, d, line))
  {
    RepliesOne(codec, lines, line);
    var (replies, trimmed) := (Replies(codec, lines), Trim(line));
    hide Replies, SaysContents, IsModel, IsEnd, ReplyStep, Trim;
    if trimmed != "" && codec(trimmed).Some? {
      var r := codec(trimmed).value;
      ContentsTold(replies, r, d);
      ModelTold(replies, r, d);
      EndTold(replies, r, d);
    }
  }

  lemma RepliesOne(codec: Codec, lines: seq<string>, line: string)
    ensures Replies(codec, lines + [line]) ==
            if Trim(line) != "" && codec(Trim(line)).Some? then Replies(codec, lines) + [codec(Trim(line)).value]
            else Replies(codec, lines)
  {
    hide Trim;
    assert (lines + [line])[..|lines|] == lines;
  }

  lemma NothingTold(codec: Codec)
    ensures Tells(Replies(codec, []), INITIAL)
  {
    hide IsEndOf;
  }

  lemma {:induction false} LinesTell(codec: Codec, lines: seq<string>)
    ensures Tells(Replies(codec, lines), FoldLines(Stepper(codec), INITIAL, lines))
  {
    hide Tells, Replies, FoldLines, LineStep;
    if lines == [] {
      FoldNone(Stepper(codec), INITIAL);
      NothingTold(codec);
    } else {
      var (front, last) := (lines[..|lines| - 1], lines[|lines| - 1]);
      LinesTell(codec, front);
      FoldOne(Stepper(codec), INITIAL, front, last);
      LineTold(codec, front, FoldLines(Stepper(codec), INITIAL, front), last);
      assert lines == front + [last];
    }
  }

  /** However a body is cut, the text sent is the contents of its replies that are not done, and the final
      event has their first model name and the counts and reason of the last that is done. */
  lemma DecodeSaysReplies(codec: Codec, chunks: seq<string>)
    ensures SaysReplies(BodyReplies(codec, chunks), Decode(codec, chunks))
    ensures SaysContents(BodyReplies(codec, chunks), Feed(LineByLine(Stepper(codec)), INITIAL, chunks).0.out)
  {
    LineByLineIsCompositional(Stepper(codec));
    ChunkIndependence(LineByLine(Stepper(codec)), INITIAL, chunks);
    LinesTell(codec, SplitLines(Concat(chunks)).complete);
    var d := Feed(LineByLine(Stepper(codec)), INITIAL, chunks).0;
    hide Feed, Replies, IsModel, IsEnd, SaysContents;
    var done := Done(d.model, d.tokensIn, d.tokensOut, d.stopReason);
    assert (d.out + [done])[..|d.out|] == d.out;
  }

  /** What is sent for the replies received: their text, and the end or the transport error. */
  ghost predicate SaysBody(codec: Codec, chunks: seq<Chunk>, events: seq<StreamEvent>) {
    var replies := BodyReplies(codec, Received(chunks));
    match FirstError(chunks)
    case None => SaysReplies(replies, events)
    case Some(message) =>
      events != [] && events[|events| - 1] == Error(message) && SaysContents(replies, events[..|events| - 1])
  }

  lemma BodyIsSaid(codec: Codec, chunks: seq<Chunk>)
    ensures FirstError(chunks).None? ==> SaysBody(codec, chunks, Decode(codec, Received(chunks)))
    ensures FirstError(chunks).Some? ==>
              SaysBody(codec, chunks, Feed(LineByLine(Stepper(codec)), INITIAL, Received(chunks)).0.out +
                                      [Error(FirstError(chunks).value)])
  {
    DecodeSaysReplies(codec, Received(chunks));
    hide SaysReplies, SaysContents, Feed, BodyReplies;
    var out := Feed(LineByLine(Stepper(codec)), INITIAL, Received(chunks)).0.out;
    assert FirstError(chunks).Some? ==> (out + [Error(FirstError(chunks).value)])[..|out|] == out;
  }

  /** Reads a response body and returns every event sent: those of the text received, then the
      transport error or the final `Done`. */
  method ProcessStream(codec: Codec, chunks: seq<Chunk>) returns (events: seq<StreamEvent>)
    ensures FirstError(chunks).None? ==> events == Decode(codec, Received(chunks))
    ensures FirstError(chunks).Some? ==>
              events == Feed(LineByLine(Stepper(codec)), INITIAL, Received(chunks)).0.out +
                        [Error(FirstError(chunks).value)]
    ensures SaysBody(codec, chunks, events)
  {
    hide SaysBody, Feed, FoldLines, SplitLines, Trim;
    BodyIsSaid(codec, chunks);
    FeedNone(LineByLine(Stepper(codec)), INITIAL);
    var model, stopReason, lineBuf := "", "", "";
    var tokensIn: nat, tokensOut: nat := 0, 0;
    events := [];
    ghost var group := LineByLine(Stepper(codec));
    for i := 0 to |chunks|
      invariant FirstError(chunks[..i]).None?
      invariant Feed(group, INITIAL, Received(chunks[..i])) ==
                (Decoder(model, tokensIn, tokensOut, stopReason, events), lineBuf)
    {
      assert chunks[..i + 1] == chunks[..i] + [chunks[i]];
      ghost var received := Received(chunks[..i]);
      ReceivedAppend(chunks[..i], chunks[i]);
      match chunks[i] {
        case Broken(message) =>
          ErrorEndsStream(chunks, i);
          return events + [Error(message)];
        case Invalid =>
          assert received + [] == received;
        case Chunk(text) =>
          var split := SplitLines(lineBuf + text);
          FeedOne(group, INITIAL, received, text);
          ghost var before := Decoder(model, tokensIn, tokensOut, stopReason, events);
          FoldNone(Stepper(codec), before);
          for k := 0 to |split.complete|
            invariant FoldLines(Stepper(codec), before, split.complete[..k]) ==
                      Decoder(model, tokensIn, tokensOut, stopReason, events)
          {
            FoldOne(Stepper(codec), before, split.complete[..k], split.complete[k]);
            assert split.complete[..k + 1] == split.complete[..k] + [split.complete[k]];
            var line := Trim(split.complete[k]);
            if line == "" { continue; }
            var read := codec(line);
            if read.None? { continue; }
            var reply := read.value;
            if model == "" { model := reply.model; }
            if reply.done {
              tokensIn, tokensOut := OrZero(reply.promptEvalCount), OrZero(reply.evalCount);
              stopReason := if reply.doneReason.Some? then reply.doneReason.value else "stop";
            } else if reply.content != "" {
              events := events + [TextDelta(reply.content)];
            }
          }
          assert split.complete[..|split.complete|] == split.complete;
          lineBuf := split.rest;
      }
    }
    assert chunks[..|chunks|] == chunks;
    events := events + [Done(model, tokensIn, tokensOut, stopReason)];
  }
}
