/** The OpenAI streaming decoder.

    A `data: [DONE]` line leaves the loop over the lines of the current chunk, not the loop over
    chunks, so what follows it is processed or not depending on where the body was cut. */
module OpenAiStream {
  import opened Prelude
  import opened Stream
  import opened LineBuffer
  import opened Text

  datatype Choice = Choice(content: Option<string>, finishReason: Option<string>)

  datatype Usage = Usage(promptTokens: nat, completionTokens: nat)

  datatype Reply = Reply(choices: seq<Choice>, usage: Option<Usage>)

  /** How the JSON library reads a payload; `None` where it reports an error. */
  type Codec = string -> Option<Reply>

  datatype Decoder = Decoder(tokensIn: nat, tokensOut: nat, stopReason: string, out: seq<StreamEvent>)

  const INITIAL: Decoder := Decoder(0, 0, "", [])

  /** What a line is to the decoder: the end marker, a payload that decodes, or nothing. */
  datatype Meaning = EndMark | Payload(reply: Reply) | Nothing

  function MeaningOf(codec: Codec, line: string): Meaning {
    var trimmed := Trim(line);
    if trimmed == "" then Nothing
    else match ParseSseLine(trimmed)
         case Some(Data(data)) =>
           if Trim(data) == "[DONE]" then EndMark
           else (match codec(data)
                 case Some(reply) => Payload(reply)
                 case None => Nothing)
         case _ => Nothing
  }

  function ChoiceStep(d: Decoder, c: Choice): Decoder {
    var reasoned := if c.finishReason.Some? && c.finishReason.value != "" then d.(stopReason := c.finishReason.value)
      else d;
    if c.content.Some? && c.content.value != "" then reasoned.(out := reasoned.out + [TextDelta(c.content.value)])
    else reasoned
  }

  function ChoicesStep(d: Decoder, choices: seq<Choice>): Decoder {
    if choices == [] then d else ChoiceStep(ChoicesStep(d, choices[..|choices| - 1]), choices[|choices| - 1])
  }

  function MeaningStep(d: Decoder, m: Meaning): Decoder {
    match m
    case Payload(reply) => ChoicesStep(Counted(d, reply), reply.choices)
    case _ => d
  }

  function Counted(d: Decoder, reply: Reply): Decoder {
    match reply.usage
    case Some(usage) => d.(tokensIn := usage.promptTokens, tokensOut := usage.completionTokens)
    case None => d
  }

  function Play(d: Decoder, ms: seq<Meaning>): Decoder {
    if ms == [] then d else MeaningStep(Play(d, ms[..|ms| - 1]), ms[|ms| - 1])
  }

  function Meanings(codec: Codec, lines: seq<string>): (ms: seq<Meaning>)
    ensures |ms| == |lines| && forall i :: 0 <= i < |lines| ==> ms[i] == MeaningOf(codec, lines[i])
  {
    seq(|lines|, i requires 0 <= i < |lines| => MeaningOf(codec, lines[i]))
  }

  /** Lines around the first end marker: those before it, whether there is one, those after it. */
  datatype Cut = Cut(before: seq<Meaning>, ended: bool, after: seq<Meaning>)

  function CutStep(c: Cut, m: Meaning): Cut {
    if c.ended then c.(after := c.after + [m])
    else if m.EndMark? then c.(ended := true)
    else c.(before := c.before + [m])
  }

  function CutAtEnd(ms: seq<Meaning>): Cut {
    if ms == [] then Cut([], false, [])
    else CutStep(CutAtEnd(ms[..|ms| - 1]), ms[|ms| - 1])
  }

  function BeforeEnd(ms: seq<Meaning>): seq<Meaning> { CutAtEnd(ms).before }

  function AfterEnd(ms: seq<Meaning>): seq<Meaning> { CutAtEnd(ms).after }

  lemma {:induction false} CutWhole(ms: seq<Meaning>)
    requires !CutAtEnd(ms).ended
    ensures CutAtEnd(ms) == Cut(ms, false, [])
  {
    if ms != [] {
      CutWhole(ms[..|ms| - 1]);
      assert ms[..|ms| - 1] + [ms[|ms| - 1]] == ms;
    }
  }

  lemma CutAppend(ms: seq<Meaning>, m: Meaning)
    ensures CutAtEnd(ms + [m]) == CutStep(CutAtEnd(ms), m)
  {
    assert (ms + [m])[..|ms|] == ms;
  }

  /** A cut of two lists is the cut of the first when it ends there, and goes on into the second otherwise. */
  function Joined(x: Cut, b: seq<Meaning>, y: Cut): Cut {
    if x.ended then x.(after := x.after + b) else y.(before := x.before + y.before)
  }

  lemma {:induction false} CutConcat(a: seq<Meaning>, b: seq<Meaning>)
    ensures CutAtEnd(a + b) == Joined(CutAtEnd(a), b, CutAtEnd(b))
  {
    var x := CutAtEnd(a);
    if b == [] {
      assert a + b == a && x.before + [] == x.before && x.after + [] == x.after;
      if !x.ended { CutWhole(a); }
    } else {
      var (front, last) := (b[..|b| - 1], b[|b| - 1]);
      assert a + b == a + front + [last] && front + [last] == b;
      CutConcat(a, front);
      CutAppend(a + front, last);
      CutAppend(front, last);
      assert x.after + front + [last] == x.after + b;
      var y := CutAtEnd(front);
      assert x.before + y.before + [last] == x.before + (y.before + [last]);
    }
  }

  /** The complete lines of one chunk: an end marker skips the rest of this chunk only. */
  function Grouper(codec: Codec): (Decoder, seq<string>) -> Decoder {
    (d, lines) => Play(d, BeforeEnd(Meanings(codec, lines)))
  }

  function DecodeState(codec: Codec, chunks: seq<string>): Decoder { Feed(Grouper(codec), INITIAL, chunks).0 }

  function Decode(codec: Codec, model: string, chunks: seq<string>): seq<StreamEvent> {
    var d := DecodeState(codec, chunks);
    d.out + [Done(model, d.tokensIn, d.tokensOut, d.stopReason)]
  }

  // ---------------------------------------------------------------------
  // What a body says, without reference to the decoder
  // ---------------------------------------------------------------------

  /** The choices of all payloads, in order. */
  function ChoicesOf(ms: seq<Meaning>): seq<Choice> {
    if ms == [] then []
    else ChoicesOf(ms[..|ms| - 1]) + (var last := ms[|ms| - 1]; if last.Payload? then last.reply.choices else [])
  }

  /** The contents of the choices, joined. */
  function Contents(choices: seq<Choice>): string {
    if choices == [] then ""
    else
      var last := choices[|choices| - 1];
      Contents(choices[..|choices| - 1]) + (if last.content.Some? then last.content.value else "")
  }

  /** The last finish reason that is not empty, if any. */
  ghost predicate IsReason(choices: seq<Choice>, reason: string) {
    (reason == "" && forall i :: 0 <= i < |choices| ==> !HasReason(choices[i])) ||
    exists i :: 0 <= i < |choices| && HasReason(choices[i]) && choices[i].finishReason.value == reason &&
                forall j :: i < j < |choices| ==> !HasReason(choices[j])
  }

  predicate HasReason(c: Choice) { c.finishReason.Some? && c.finishReason.value != "" }

  /** The prompt and the completion tokens of the last payload with usage, if any. */
  ghost predicate IsUsage(ms: seq<Meaning>, tokensIn: nat, tokensOut: nat) {
    (tokensIn == 0 && tokensOut == 0 && forall i :: 0 <= i < |ms| ==> !HasUsage(ms[i])) ||
    exists i :: 0 <= i < |ms| && HasUsage(ms[i]) && ms[i].reply.usage.value.promptTokens == tokensIn &&
                ms[i].reply.usage.value.completionTokens == tokensOut && forall j :: i < j < |ms| ==> !HasUsage(ms[j])
  }

  predicate HasUsage(m: Meaning) { m.Payload? && m.reply.usage.Some? }

  /** Only text deltas, none empty, and together they say the contents. */
  ghost predicate SaysContents(choices: seq<Choice>, events: seq<StreamEvent>) {
    TextOf(events) == Contents(choices) && forall e :: e in events ==> e.TextDelta? && e.text != ""
  }

  ghost predicate SaysChoices(choices: seq<Choice>, d: Decoder) {
    SaysContents(choices, d.out) && IsReason(choices, d.stopReason)
  }

  ghost predicate Tells(ms: seq<Meaning>, d: Decoder) {
    SaysChoices(ChoicesOf(ms), d) && IsUsage(ms, d.tokensIn, d.tokensOut)
  }

  lemma ContentsOne(choices: seq<Choice>, c: Choice)
    ensures Contents(choices + [c]) == Contents(choices) + (if c.content.Some? then c.content.value else "")
  {
    assert (choices + [c])[..|choices|] == choices;
  }

  lemma ContentTold(choices: seq<Choice>, c: Choice, d: Decoder)
    requires SaysContents(choices, d.out)
    ensures SaysContents(choices + [c], ChoiceStep(d, c).out)
  {
    ContentsOne(choices, c);
    NothingAdded(Contents(choices));
    if c.content.Some? { Appended(d.out, TextDelta(c.content.value)); }
    hide TextOf, Contents;
  }

  lemma ReasonTold(choices: seq<Choice>, c: Choice, d: Decoder)
    requires IsReason(choices, d.stopReason)
    ensures IsReason(choices + [c], ChoiceStep(d, c).stopReason)
  {
    var more := choices + [c];
    assert forall i :: 0 <= i < |choices| ==> more[i] == choices[i];
    assert more[|choices|] == c;
  }

  lemma {:induction false} ChoicesTold(before: seq<Choice>, d: Decoder, choices: seq<Choice>)
    requires SaysChoices(before, d)
    ensures SaysChoices(before + choices, ChoicesStep(d, choices))
  {
    hide SaysContents, IsReason, ChoiceStep;
    if choices == [] {
      NothingAdded(before);
    } else {
      var (front, last) := (choices[..|choices| - 1], choices[|choices| - 1]);
      ChoicesTold(before, d, front);
      ContentTold(before + front, last, ChoicesStep(d, front));
      ReasonTold(before + front, last, ChoicesStep(d, front));
      assert before + choices == before + front + [last];
    }
  }

  lemma UsageTold(ms: seq<Meaning>, m: Meaning, d: Decoder)
    requires IsUsage(ms, d.tokensIn, d.tokensOut)
    ensures var e := MeaningStep(d, m); IsUsage(ms + [m], e.tokensIn, e.tokensOut)
  {
    var more := ms + [m];
    assert forall i :: 0 <= i < |ms| ==> more[i] == ms[i];
    assert more[|ms|] == m;
    if m.Payload? { ChoicesKeepCounts(Counted(d, m.reply), m.reply.choices); }
  }

  lemma {:induction false} ChoicesKeepCounts(d: Decoder, choices: seq<Choice>)
    ensures ChoicesStep(d, choices).tokensIn == d.tokensIn && ChoicesStep(d, choices).tokensOut == d.tokensOut
  {
    if choices != [] { ChoicesKeepCounts(d, choices[..|choices| - 1]); }
  }

  lemma NothingTold()
    ensures Tells([], INITIAL)
  {}

  lemma MeaningTold(ms: seq<Meaning>, m: Meaning, d: Decoder)
    requires Tells(ms, d)
    ensures Tells(ms + [m], MeaningStep(d, m))
  {
    UsageTold(ms, m, d);
    ChoicesOne(ms, m);
    hide SaysContents, IsReason, IsUsage, ChoicesOf, ChoicesStep;
    if m.Payload? {
      ChoicesTold(ChoicesOf(ms), Counted(d, m.reply), m.reply.choices);
    } else {
      NothingAdded(ChoicesOf(ms));
    }
  }

  lemma ChoicesOne(ms: seq<Meaning>, m: Meaning)
    ensures ChoicesOf(ms + [m]) == ChoicesOf(ms) + if m.Payload? then m.reply.choices else []
  {
    assert (ms + [m])[..|ms|] == ms;
  }

  /** What the decoder has after some lines is what their payloads say. */
  lemma {:induction false} PlayTells(ms: seq<Meaning>)
    ensures Tells(ms, Play(INITIAL, ms))
  {
    hide Tells, MeaningStep;
    if ms == [] {
      NothingTold();
    } else {
      PlayTells(ms[..|ms| - 1]);
      MeaningTold(ms[..|ms| - 1], ms[|ms| - 1], Play(INITIAL, ms[..|ms| - 1]));
      assert ms == ms[..|ms| - 1] + [ms[|ms| - 1]];
    }
  }

  /** The lines acted on when a body arrives in these chunks: of the lines that each chunk completes, those
      before the first end marker. */
  function Heard(codec: Codec, chunks: seq<string>): seq<Meaning> {
    if chunks == [] then []
    else
      var (front, last) := (chunks[..|chunks| - 1], chunks[|chunks| - 1]);
      Heard(codec, front) + BeforeEnd(Meanings(codec, SplitLines(SplitLines(Concat(front)).rest + last).complete))
  }

  lemma HeardOne(codec: Codec, front: seq<string>, last: string)
    ensures Heard(codec, front + [last]) ==
            Heard(codec, front) + BeforeEnd(Meanings(codec, SplitLines(SplitLines(Concat(front)).rest + last).complete))
  {
    hide SplitLines, BeforeEnd, Meanings, Concat;
    assert (front + [last])[..|front|] == front;
  }

  lemma HeardNothing(codec: Codec)
    ensures Heard(codec, []) == [] && Play(INITIAL, []) == INITIAL && DecodeState(codec, []) == INITIAL
  {
    FeedNone(Grouper(codec), INITIAL);
  }

  /** A body in one chunk is heard up to its first end marker. */
  lemma HeardAtOnce(codec: Codec, text: string)
    ensures Heard(codec, [text]) == BeforeEnd(TextMeanings(codec, text))
  {
    HeardNothing(codec);
    HeardOne(codec, [], text);
    hide Heard, BeforeEnd;
    assert [] + [text] == [text] && Concat([]) == "" && SplitLines("").rest + text == text;
    NothingAdded(BeforeEnd(TextMeanings(codec, text)));
  }

  lemma HearsOneMore(codec: Codec, front: seq<string>, last: string)
    requires DecodeState(codec, front) == Play(INITIAL, Heard(codec, front))
    ensures DecodeState(codec, front + [last]) == Play(INITIAL, Heard(codec, front + [last]))
  {
    hide Heard, Play, SplitLines, BeforeEnd, DecodeState, Concat, Meanings;
    var more := OneMoreChunk(codec, front, last);
    HeardOne(codec, front, last);
    PlayConcat(INITIAL, Heard(codec, front), BeforeEnd(more));
  }

  lemma {:induction false} DecodeHears(codec: Codec, chunks: seq<string>)
    ensures DecodeState(codec, chunks) == Play(INITIAL, Heard(codec, chunks))
  {
    hide Heard, Play, DecodeState;
    if chunks == [] {
      HeardNothing(codec);
    } else {
      DecodeHears(codec, chunks[..|chunks| - 1]);
      HearsOneMore(codec, chunks[..|chunks| - 1], chunks[|chunks| - 1]);
      assert chunks == chunks[..|chunks| - 1] + [chunks[|chunks| - 1]];
    }
  }

  /** The lines before the first end marker. */
  lemma BeforeEndIs(ms: seq<Meaning>)
    ensures var before := BeforeEnd(ms);
            before <= ms && EndMark !in before && (before == ms || ms[|before|].EndMark?)
  {
    if k :| 0 <= k < |ms| && ms[k].EndMark? && EndMark !in ms[..k] {
      NotEnded(ms[..k]);
      EndsAt(ms, k);
    } else {
      NoneOrFirst(ms);
      NotEnded(ms);
      CutWhole(ms);
    }
  }

  lemma {:induction false} NotEnded(ms: seq<Meaning>)
    requires EndMark !in ms
    ensures !CutAtEnd(ms).ended
  {
    if ms != [] {
      assert ms[|ms| - 1] in ms;
      NotEnded(ms[..|ms| - 1]);
    }
  }

  lemma {:induction false} NoneOrFirst(ms: seq<Meaning>)
    ensures EndMark !in ms || exists k :: 0 <= k < |ms| && ms[k].EndMark? && EndMark !in ms[..k]
  {
    if ms != [] {
      var front := ms[..|ms| - 1];
      NoneOrFirst(front);
      if EndMark in front {
        var k :| 0 <= k < |front| && front[k].EndMark? && EndMark !in front[..k];
        assert ms[..k] == front[..k] && ms[k].EndMark?;
      } else if ms[|ms| - 1].EndMark? {
        assert ms[..|ms| - 1] == front;
      }
    }
  }

  /** What a line means is decided by its payload, `data: ` and anything: the end when that is `[DONE]`,
      otherwise what it decodes to. */
  lemma MeaningIs(codec: Codec, line: string, data: string)
    ensures Trim(line) == "data: " + data ==>
              MeaningOf(codec, line) ==
                if Trim(data) == "[DONE]" then EndMark
                else if codec(data).Some? then Payload(codec(data).value) else Nothing
    ensures !("data: " <= Trim(line)) ==> MeaningOf(codec, line) == Nothing
  {
    hide Trim;
    ParsesData(data);
    ParsesExactly(Trim(line));
    hide ParseSseLine;
    assert Trim(line) == "data: " + data ==> Trim(line)[0] == 'd';
  }

  /** What is sent for the lines acted on: their text, and the end or the transport error. */
  ghost predicate SaysBody(codec: Codec, model: string, chunks: seq<Chunk>, events: seq<StreamEvent>) {
    events != [] &&
    var (heard, deltas, last) := (Heard(codec, Received(chunks)), events[..|events| - 1], events[|events| - 1]);
    SaysContents(ChoicesOf(heard), deltas) &&
    match FirstError(chunks)
    case None =>
      last.Done? && last.model == model && IsUsage(heard, last.tokensIn, last.tokensOut) &&
      IsReason(ChoicesOf(heard), last.stopReason)
    case Some(message) => last == Error(message)
  }

  lemma BodyIsSaid(codec: Codec, model: string, chunks: seq<Chunk>)
    ensures FirstError(chunks).None? ==> SaysBody(codec, model, chunks, Decode(codec, model, Received(chunks)))
    ensures FirstError(chunks).Some? ==>
              SaysBody(codec, model, chunks,
                       DecodeState(codec, Received(chunks)).out + [Error(FirstError(chunks).value)])
  {
    DecodeHears(codec, Received(chunks));
    PlayTells(Heard(codec, Received(chunks)));
    hide SaysContents, IsUsage, IsReason, Heard, DecodeState, Play, ChoicesOf;
    var d := DecodeState(codec, Received(chunks));
    forall last ensures (d.out + [last])[..|d.out|] == d.out {}
  }

  /** Reads a response body and returns every event sent: those of the text received, then the
      transport error or the final `Done`. */
  method ProcessStream(codec: Codec, model: string, chunks: seq<Chunk>) returns (events: seq<StreamEvent>)
    ensures FirstError(chunks).None? ==> events == Decode(codec, model, Received(chunks))
    ensures FirstError(chunks).Some? ==>
              events == DecodeState(codec, Received(chunks)).out + [Error(FirstError(chunks).value)]
    ensures SaysBody(codec, model, chunks, events)
  {
    hide SaysBody, Feed, SplitLines, Play, BeforeEnd;
    BodyIsSaid(codec, model, chunks);
    FeedNone(Grouper(codec), INITIAL);
    var tokensIn: nat, tokensOut: nat := 0, 0;
    var stopReason, lineBuf := "", "";
    events := [];
    for i := 0 to |chunks|
      invariant FirstError(chunks[..i]).None?
      invariant Feed(Grouper(codec), INITIAL, Received(chunks[..i])) ==
                (Decoder(tokensIn, tokensOut, stopReason, events), lineBuf)
    {
      assert chunks[..i + 1] == chunks[..i] + [chunks[i]];
      ghost var received := Received(chunks[..i]);
      ReceivedAppend(chunks[..i], chunks[i]);
      match chunks[i] {
        case Broken(message) =>
          ErrorEndsStream(chunks, i);
          return events + [Error(message)];
        case Invalid =>
          assert received + [] == received;
        case Chunk(text) =>
          var split := SplitLines(lineBuf + text);
          FeedOne(Grouper(codec), INITIAL, received, text);
          var d := ProcessLines(codec, split.complete, Decoder(tokensIn, tokensOut, stopReason, events));
          tokensIn, tokensOut, stopReason, events := d.tokensIn, d.tokensOut, d.stopReason, d.out;
          lineBuf := split.rest;
      }
    }
    assert chunks[..|chunks|] == chunks;
    events := events + [Done(model, tokensIn, tokensOut, stopReason)];
  }

  /** The loop over the complete lines of one chunk, left at the end marker. */
  method ProcessLines(codec: Codec, lines: seq<string>, start: Decoder) returns (d: Decoder)
    ensures d == Play(start, BeforeEnd(Meanings(codec, lines)))
  {
    d := start;
    ghost var ms := Meanings(codec, lines);
    for k := 0 to |lines|
      invariant d == Play(start, ms[..k])
      invariant CutAtEnd(ms[..k]) == Cut(ms[..k], false, [])
    {
      var m := MeaningOf(codec, lines[k]);
      assert m == ms[k];
      if m.EndMark? {
        EndsAt(ms, k);
        return;
      }
      LineTaken(start, ms, k);
      if m.Payload? { d := ProcessReply(m.reply, d); }
    }
    assert ms[..|lines|] == ms;
  }

  lemma LineTaken(d: Decoder, ms: seq<Meaning>, k: nat)
    requires k < |ms| && !ms[k].EndMark? && CutAtEnd(ms[..k]) == Cut(ms[..k], false, [])
    ensures Play(d, ms[..k + 1]) == MeaningStep(Play(d, ms[..k]), ms[k])
    ensures CutAtEnd(ms[..k + 1]) == Cut(ms[..k + 1], false, [])
  {
    assert ms[..k] + [ms[k]] == ms[..k + 1];
    PlayOne(d, ms[..k], ms[k]);
    CutAppend(ms[..k], ms[k]);
  }

  lemma EndsAt(ms: seq<Meaning>, k: nat)
    requires k < |ms| && ms[k].EndMark? && !CutAtEnd(ms[..k]).ended
    ensures BeforeEnd(ms) == ms[..k]
  {
    hide CutAtEnd;
    CutWhole(ms[..k]);
    CutAppend(ms[..k], ms[k]);
    CutConcat(ms[..k] + [ms[k]], ms[k + 1..]);
    assert ms == ms[..k] + [ms[k]] + ms[k + 1..];
  }

  /** One decoded payload: its usage, then its choices in order. */
  method ProcessReply(reply: Reply, start: Decoder) returns (d: Decoder)
    ensures d == ChoicesStep(Counted(start, reply), reply.choices)
  {
    d := start;
    if reply.usage.Some? {
      d := d.(tokensIn := reply.usage.value.promptTokens, tokensOut := reply.usage.value.completionTokens);
    }
    for c := 0 to |reply.choices|
      invariant d == ChoicesStep(Counted(start, reply), reply.choices[..c])
    {
      assert reply.choices[..c + 1][..c] == reply.choices[..c];
      var choice := reply.choices[c];
      if choice.finishReason.Some? && choice.finishReason.value != "" {
        d := d.(stopReason := choice.finishReason.value);
      }
      if choice.content.Some? && choice.content.value != "" {
        d := d.(out := d.out + [TextDelta(choice.content.value)]);
      }
    }
    assert reply.choices[..|reply.choices|] == reply.choices;
  }

  lemma PlayOne(d: Decoder, ms: seq<Meaning>, m: Meaning)
    ensures Play(d, ms + [m]) == MeaningStep(Play(d, ms), m)
  {
    assert (ms + [m])[..|ms|] == ms;
  }

  lemma {:induction false} PlayConcat(d: Decoder, a: seq<Meaning>, b: seq<Meaning>)
    ensures Play(d, a + b) == Play(Play(d, a), b)
  {
    if b == [] {
      assert a + b == a;
    } else {
      assert (a + b)[..|a + b| - 1] == a + b[..|b| - 1];
      PlayConcat(d, a, b[..|b| - 1]);
    }
  }

  // ---------------------------------------------------------------------
  // When the cutting into chunks does not show
  // ---------------------------------------------------------------------

  /** A line that changes nothing, whatever came before. */
  predicate Quiet(m: Meaning) {
    m.Payload? ==>
      m.reply.usage.None? &&
      forall i :: 0 <= i < |m.reply.choices| ==> QuietChoice(m.reply.choices[i])
  }

  predicate QuietChoice(c: Choice) {
    (c.finishReason.Some? ==> c.finishReason.value == "") && (c.content.Some? ==> c.content.value == "")
  }

  predicate AllQuiet(ms: seq<Meaning>) { forall i :: 0 <= i < |ms| ==> Quiet(ms[i]) }

  lemma {:induction false} QuietChoices(d: Decoder, choices: seq<Choice>)
    requires forall i :: 0 <= i < |choices| ==> QuietChoice(choices[i])
    ensures ChoicesStep(d, choices) == d
  {
    if choices != [] { QuietChoices(d, choices[..|choices| - 1]); }
  }

  lemma {:induction false} QuietPlay(d: Decoder, ms: seq<Meaning>)
    requires AllQuiet(ms)
    ensures Play(d, ms) == d
  {
    if ms != [] {
      QuietPlay(d, ms[..|ms| - 1]);
      var m := ms[|ms| - 1];
      if m.Payload? { QuietChoices(d, m.reply.choices); }
    }
  }

  /** What the lines of a text mean. */
  function TextMeanings(codec: Codec, text: string): seq<Meaning> { Meanings(codec, SplitLines(text).complete) }

  /** One more chunk: what the lines it completes mean, and what the decoder does with them. */
  lemma OneMoreChunk(codec: Codec, front: seq<string>, last: string) returns (more: seq<Meaning>)
    ensures TextMeanings(codec, Concat(front + [last])) == TextMeanings(codec, Concat(front)) + more
    ensures DecodeState(codec, front + [last]) == Play(DecodeState(codec, front), BeforeEnd(more))
    ensures more == Meanings(codec, SplitLines(SplitLines(Concat(front)).rest + last).complete)
  {
    hide SplitLines, Feed, Play, BeforeEnd, MeaningOf, Concat;
    var lines := FeedMore(Grouper(codec), INITIAL, front, last);
    more := Meanings(codec, lines);
    MeaningsConcat(codec, SplitLines(Concat(front)).complete, lines);
  }

  lemma MeaningsConcat(codec: Codec, a: seq<string>, b: seq<string>)
    ensures Meanings(codec, a + b) == Meanings(codec, a) + Meanings(codec, b)
  {
    hide MeaningOf;
  }

  /** The decoder at the first end marker. */
  function AtEnd(ms: seq<Meaning>): Decoder { Play(INITIAL, BeforeEnd(ms)) }

  /** Wherever one starts among the lines after the marker, playing up to the next marker gives the
      same decoder back. */
  ghost predicate Settled(d: Decoder, after: seq<Meaning>) {
    forall i :: 0 <= i <= |after| ==> SettledFrom(d, after, i)
  }

  predicate SettledFrom(d: Decoder, after: seq<Meaning>, i: nat)
    requires i <= |after|
  {
    Play(d, BeforeEnd(after[i..])) == d
  }

  /** What the decoder can be after the lines `ms`, however they were grouped: it has played them all, or
      it has reached the first marker and since then played the lines from some point on, past every
      other marker. */
  ghost predicate Resumes(ms: seq<Meaning>, d: Decoder) {
    if !CutAtEnd(ms).ended then d == Play(INITIAL, ms) else exists i: nat :: ResumesFrom(ms, d, i)
  }

  predicate ResumesFrom(ms: seq<Meaning>, d: Decoder, i: nat) {
    i <= |AfterEnd(ms)| && !CutAtEnd(AfterEnd(ms)[i..]).ended && d == Play(AtEnd(ms), AfterEnd(ms)[i..])
  }

  lemma ResumesAtEnd(ms: seq<Meaning>)
    requires CutAtEnd(ms).ended
    ensures Resumes(ms, AtEnd(ms))
  {
    assert AfterEnd(ms)[|AfterEnd(ms)|..] == [];
    assert ResumesFrom(ms, AtEnd(ms), |AfterEnd(ms)|);
  }

  /** One more group of lines before the first marker. */
  lemma ResumesToEnd(ms: seq<Meaning>, d: Decoder, more: seq<Meaning>)
    requires !CutAtEnd(ms).ended && d == Play(INITIAL, ms)
    ensures Resumes(ms + more, Play(d, BeforeEnd(more)))
  {
    hide CutAtEnd, Play;
    CutWhole(ms);
    CutConcat(ms, more);
    PlayConcat(INITIAL, ms, BeforeEnd(more));
    if CutAtEnd(more).ended { ResumesAtEnd(ms + more); } else { CutWhole(more); }
  }

  /** One more group of lines after it, no marker among them. */
  lemma ResumesPast(ms: seq<Meaning>, d: Decoder, more: seq<Meaning>, i: nat)
    requires CutAtEnd(ms).ended && ResumesFrom(ms, d, i) && !CutAtEnd(more).ended
    ensures Resumes(ms + more, Play(d, BeforeEnd(more)))
  {
    hide CutAtEnd, Play;
    var tail := AfterEnd(ms)[i..];
    CutConcat(ms, more);
    CutWhole(more);
    CutConcat(tail, more);
    PlayConcat(AtEnd(ms), tail, more);
    assert AfterEnd(ms + more)[i..] == tail + more;
    assert ResumesFrom(ms + more, Play(d, more), i);
  }

  lemma SettledTail(d: Decoder, a: seq<Meaning>, b: seq<Meaning>, i: nat)
    requires Settled(d, a + b) && i <= |a|
    ensures Play(d, BeforeEnd(a[i..] + b)) == d
  {
    hide Play, CutAtEnd;
    assert SettledFrom(d, a + b, i) && (a + b)[i..] == a[i..] + b;
  }

  /** One more group of lines after it, with a marker: the decoder is settled again. */
  lemma ResumesAgain(ms: seq<Meaning>, d: Decoder, more: seq<Meaning>, rest: seq<Meaning>, i: nat)
    requires CutAtEnd(ms).ended && ResumesFrom(ms, d, i) && CutAtEnd(more).ended
    requires Settled(AtEnd(ms), AfterEnd(ms) + (more + rest))
    ensures Resumes(ms + more, Play(d, BeforeEnd(more)))
  {
    hide CutAtEnd, Play;
    var tail := AfterEnd(ms)[i..];
    SettledTail(AtEnd(ms), AfterEnd(ms), more + rest, i);
    hide Settled;
    CutWhole(tail);
    CutConcat(tail, more + rest);
    CutConcat(more, rest);
    CutConcat(ms, more);
    PlayConcat(AtEnd(ms), tail, BeforeEnd(more));
    ResumesAtEnd(ms + more);
  }

  lemma {:induction false} FeedResumes(codec: Codec, chunks: seq<string>, rest: seq<Meaning>)
    requires var ms := TextMeanings(codec, Concat(chunks)) + rest; Settled(AtEnd(ms), AfterEnd(ms))
    ensures Resumes(TextMeanings(codec, Concat(chunks)), DecodeState(codec, chunks))
  {
    if chunks != [] {
      hide DecodeState, TextMeanings, Settled, Resumes, Play, CutAtEnd, Concat;
      var (front, last) := (chunks[..|chunks| - 1], chunks[|chunks| - 1]);
      assert chunks == front + [last];
      var (ms, d) := (TextMeanings(codec, Concat(front)), DecodeState(codec, front));
      var more := OneMoreChunk(codec, front, last);
      Associative(ms, more, rest);
      FeedResumes(codec, front, more + rest);
      ResumesOn(ms, d, more, rest);
    }
  }

  lemma ResumesOn(ms: seq<Meaning>, d: Decoder, more: seq<Meaning>, rest: seq<Meaning>)
    requires Resumes(ms, d) && Settled(AtEnd(ms + (more + rest)), AfterEnd(ms + (more + rest)))
    ensures Resumes(ms + more, Play(d, BeforeEnd(more)))
  {
    if !CutAtEnd(ms).ended {
      ResumesToEnd(ms, d, more);
    } else {
      var i: nat :| ResumesFrom(ms, d, i);
      hide CutAtEnd, Play, ResumesFrom, Settled;
      CutConcat(ms, more + rest);
      if CutAtEnd(more).ended { ResumesAgain(ms, d, more, rest, i); } else { ResumesPast(ms, d, more, i); }
    }
  }

  /** A whole text decodes, however it is cut, to the decoder at its first end marker. */
  lemma SettledFeed(codec: Codec, chunks: seq<string>)
    requires var ms := TextMeanings(codec, Concat(chunks)); Settled(AtEnd(ms), AfterEnd(ms))
    ensures DecodeState(codec, chunks) == AtEnd(TextMeanings(codec, Concat(chunks)))
  {
    hide DecodeState, TextMeanings, Play, CutAtEnd, Concat;
    var ms := TextMeanings(codec, Concat(chunks));
    NothingAdded(ms);
    FeedResumes(codec, chunks, []);
    if CutAtEnd(ms).ended {
      var i: nat :| ResumesFrom(ms, DecodeState(codec, chunks), i);
      CutWhole(AfterEnd(ms)[i..]);
      assert SettledFrom(AtEnd(ms), AfterEnd(ms), i);
    } else {
      CutWhole(ms);
    }
  }

  lemma AtOnce(codec: Codec, text: string)
    ensures DecodeState(codec, [text]) == AtEnd(TextMeanings(codec, text)) && Concat([text]) == text
  {
    var more := OneMoreChunk(codec, [], text);
    assert [] + [text] == [text] && Concat([text]) == text;
    assert TextMeanings(codec, Concat([])) == [] && [] + more == more;
  }

  /** Cutting a text right after its `k`-th line. */
  lemma {:induction false} CutAfterLines(text: string, k: nat) returns (a: string, b: string)
    requires k <= |SplitLines(text).complete|
    ensures text == a + b && SplitLines(a) == Split(SplitLines(text).complete[..k], "")
  {
    if SplitLines(text).rest == "" && k == |SplitLines(text).complete| {
      a, b := text, "";
    } else {
      assert text != "";
      hide SplitLines;
      var (front, c) := (text[..|text| - 1], text[|text| - 1]);
      SplitOne(front, c);
      assert text == front + [c];
      a, b := CutAfterLines(front, k);
      b := b + [c];
    }
  }

  /** Cutting once, after the `i`-th line after the first marker, plays the lines from there on. */
  lemma CutShows(codec: Codec, text: string, i: nat) returns (chunks: seq<string>)
    requires var ms := TextMeanings(codec, text); CutAtEnd(ms).ended && i <= |AfterEnd(ms)|
    ensures Concat(chunks) == text
    ensures var ms := TextMeanings(codec, text);
            DecodeState(codec, chunks) == Play(AtEnd(ms), BeforeEnd(AfterEnd(ms)[i..]))
  {
    hide DecodeState, Play, CutAtEnd, SplitLines, Concat, MeaningOf;
    var ms := TextMeanings(codec, text);
    var k := |ms| - |AfterEnd(ms)| + i;
    EndsWithAfter(ms);
    var a, b := CutAfterLines(text, k);
    assert TextMeanings(codec, a) == ms[..k];
    hide TextMeanings;
    chunks := [a] + [b];
    ConcatTwo(a, b);
    AtOnce(codec, a);
    var more := OneMoreChunk(codec, [a], b);
    assert more == ms[k..] by { assert (ms[..k] + more)[k..] == more; }
    CutInside(ms, k);
  }

  lemma ConcatTwo(a: string, b: string)
    ensures Concat([a]) == a && Concat([a] + [b]) == a + b
  {
    ConcatAppend([a], [b]);
    assert [a][1..] == [] && [b][1..] == [];
    NothingAdded(a);
    NothingAdded(b);
  }

  lemma {:induction false} EndsWithAfter(ms: seq<Meaning>)
    requires CutAtEnd(ms).ended
    ensures |AfterEnd(ms)| < |ms| && ms[|ms| - |AfterEnd(ms)|..] == AfterEnd(ms)
  {
    var front := ms[..|ms| - 1];
    if CutAtEnd(front).ended { EndsWithAfter(front); } else { CutWhole(front); }
  }

  /** A cut of the lines after the first marker leaves that marker in the first part. */
  lemma CutInside(ms: seq<Meaning>, k: nat)
    requires CutAtEnd(ms).ended && |ms| - |AfterEnd(ms)| <= k <= |ms|
    ensures AtEnd(ms[..k]) == AtEnd(ms) && ms[k..] == AfterEnd(ms)[k - (|ms| - |AfterEnd(ms)|)..]
  {
    EndsWithAfter(ms);
    var p := |ms| - |AfterEnd(ms)|;
    hide CutAtEnd, Play;
    assert ms == ms[..k] + ms[k..];
    CutConcat(ms[..k], ms[k..]);
    assert AfterEnd(ms) == ms[p..] && ms[p..][k - p..] == ms[k..];
    if !CutAtEnd(ms[..k]).ended {
      CutWhole(ms[..k]);
      LengthAfter(ms[k..]);
    }
  }

  lemma {:induction false} LengthAfter(ms: seq<Meaning>)
    ensures CutAtEnd(ms).ended ==> |AfterEnd(ms)| < |ms|
  {
    if CutAtEnd(ms).ended { EndsWithAfter(ms); }
  }

  lemma DecodeIsState(codec: Codec, model: string, a: seq<string>, b: seq<string>)
    ensures Decode(codec, model, a) == Decode(codec, model, b) <==> DecodeState(codec, a) == DecodeState(codec, b)
  {
    hide DecodeState;
    var (d, e) := (DecodeState(codec, a), DecodeState(codec, b));
    if Decode(codec, model, a) == Decode(codec, model, b) {
      var events := d.out + [Done(model, d.tokensIn, d.tokensOut, d.stopReason)];
      assert events[..|d.out|] == d.out && events[..|e.out|] == e.out;
      assert events[|d.out|] == events[|e.out|];
    }
  }

  /** Every cutting of a body into chunks yields the same events, token counts and stop reason included,
      exactly when the lines after the first end marker, played from any point up to the next marker,
      leave the decoder as it was at the first one. */
  lemma ChunkingIsHiddenExactly(codec: Codec, model: string, text: string)
    ensures var ms := TextMeanings(codec, text);
            Settled(AtEnd(ms), AfterEnd(ms)) <==>
            forall chunks :: Concat(chunks) == text ==> Decode(codec, model, chunks) == Decode(codec, model, [text])
  {
    hide DecodeState, Decode, TextMeanings, Play, CutAtEnd, Concat;
    var ms := TextMeanings(codec, text);
    AtOnce(codec, text);
    if Settled(AtEnd(ms), AfterEnd(ms)) {
      forall chunks | Concat(chunks) == text ensures Decode(codec, model, chunks) == Decode(codec, model, [text]) {
        SettledFeed(codec, chunks);
        DecodeIsState(codec, model, chunks, [text]);
      }
    } else {
      var i :| 0 <= i <= |AfterEnd(ms)| && !SettledFrom(AtEnd(ms), AfterEnd(ms), i);
      if !CutAtEnd(ms).ended { NothingSettled(ms, i); }
      var chunks := CutShows(codec, text, i);
      DecodeIsState(codec, model, chunks, [text]);
    }
  }

  lemma NothingSettled(ms: seq<Meaning>, i: nat)
    requires !CutAtEnd(ms).ended && i <= |AfterEnd(ms)|
    ensures SettledFrom(AtEnd(ms), AfterEnd(ms), i)
  {
    CutWhole(ms);
  }

  /** When only quiet lines follow the end marker, every cutting yields the same events. */
  lemma QuietTailHidesChunking(codec: Codec, model: string, chunks: seq<string>)
    requires AllQuiet(AfterEnd(TextMeanings(codec, Concat(chunks))))
    ensures Decode(codec, model, chunks) == Decode(codec, model, [Concat(chunks)])
  {
    var ms := TextMeanings(codec, Concat(chunks));
    forall i | 0 <= i <= |AfterEnd(ms)| ensures SettledFrom(AtEnd(ms), AfterEnd(ms), i) {
      QuietBefore(AfterEnd(ms)[i..]);
      QuietPlay(AtEnd(ms), BeforeEnd(AfterEnd(ms)[i..]));
    }
    ChunkingIsHiddenExactly(codec, model, Concat(chunks));
  }

  lemma {:induction false} QuietBefore(ms: seq<Meaning>)
    requires AllQuiet(ms)
    ensures AllQuiet(BeforeEnd(ms))
  {
    if ms != [] { QuietBefore(ms[..|ms| - 1]); }
  }

  // --- the text deltas, exactly ---------------------------------------------

  function ChoicesEmit(choices: seq<Choice>): seq<StreamEvent> {
    if choices == [] then []
    else ChoicesEmit(choices[..|choices| - 1]) +
         (var c := choices[|choices| - 1];
          if c.content.Some? && c.content.value != "" then [TextDelta(c.content.value)] else [])
  }

  /** The text deltas of some lines, whatever came before. */
  function Emits(ms: seq<Meaning>): seq<StreamEvent> {
    if ms == [] then []
    else Emits(ms[..|ms| - 1]) +
         EmitsOf(ms[|ms| - 1])
  }

  lemma {:induction false} ChoicesOut(d: Decoder, choices: seq<Choice>)
    ensures ChoicesStep(d, choices).out == d.out + ChoicesEmit(choices)
  {
    if choices != [] { ChoicesOut(d, choices[..|choices| - 1]); }
  }

  lemma {:induction false} PlayOut(d: Decoder, ms: seq<Meaning>)
    ensures Play(d, ms).out == d.out + Emits(ms)
  {
    if ms != [] {
      PlayOut(d, ms[..|ms| - 1]);
      var m := ms[|ms| - 1];
      if m.Payload? { ChoicesOut(Counted(Play(d, ms[..|ms| - 1]), m.reply), m.reply.choices); }
    }
  }

  lemma {:induction false} EmitsConcat(a: seq<Meaning>, b: seq<Meaning>)
    ensures Emits(a + b) == Emits(a) + Emits(b)
  {
    hide EmitsOf;
    if b == [] {
      assert a + b == a;
    } else {
      assert (a + b)[..|a + b| - 1] == a + b[..|b| - 1];
      EmitsConcat(a, b[..|b| - 1]);
    }
  }

  function EmitsCut(c: Cut): seq<StreamEvent> { Emits(c.before) + Emits(c.after) }

  function EmitsOf(m: Meaning): seq<StreamEvent> { if m.Payload? then ChoicesEmit(m.reply.choices) else [] }

  lemma {:induction false} EmitsSplit(ms: seq<Meaning>)
    ensures Emits(ms) == EmitsCut(CutAtEnd(ms))
  {
    if ms != [] {
      var (front, last) := (ms[..|ms| - 1], ms[|ms| - 1]);
      EmitsSplit(front);
      if !CutAtEnd(front).ended { CutWhole(front); }
      EmitsSplitStep(CutAtEnd(front), last);
    }
  }

  lemma EmitsSplitStep(c: Cut, m: Meaning)
    requires !c.ended ==> c.after == []
    ensures EmitsCut(CutStep(c, m)) == EmitsCut(c) + EmitsOf(m)
  {
    if c.ended {
      EmitsOne(c.after, m);
      Associative(Emits(c.before), Emits(c.after), EmitsOf(m));
    } else if !m.EndMark? {
      EmitsOne(c.before, m);
      NothingAdded(Emits(c.before));
      NothingAdded(EmitsOf(m));
      NothingAdded(Emits(c.before) + EmitsOf(m));
    }
  }

  lemma EmitsOne(ms: seq<Meaning>, m: Meaning)
    ensures Emits(ms + [m]) == Emits(ms) + EmitsOf(m)
  {
    assert (ms + [m])[..|ms|] == ms;
  }

  /** A text cut into single characters: no chunk holds two complete lines, so nothing is skipped. */
  lemma {:induction false} SingleCharacters(codec: Codec, text: string) returns (chunks: seq<string>)
    ensures Concat(chunks) == text
    ensures DecodeState(codec, chunks).out == Emits(TextMeanings(codec, text))
  {
    if text == "" {
      chunks := [];
    } else {
      var (front, c) := (text[..|text| - 1], text[|text| - 1]);
      var before := SingleCharacters(codec, front);
      chunks := before + [[c]];
      ConcatAppend(before, [[c]]);
      assert Concat([[c]]) == [c] && front + [c] == text;
      hide DecodeState, Emits, TextMeanings, SplitLines, Concat, BeforeEnd, AfterEnd, Play;
      var more := OneMoreChunk(codec, before, [c]);
      AtMostOneLine(SplitLines(front).rest, c);
      PlayOut(DecodeState(codec, before), BeforeEnd(more));
      EmitsConcat(TextMeanings(codec, front), more);
      OneLineEmits(more);
    }
  }

  lemma OneLineEmits(ms: seq<Meaning>)
    requires |ms| <= 1
    ensures Emits(BeforeEnd(ms)) == Emits(ms)
  {
    EmitsSplit(ms);
    NothingAfterOne(ms);
    NothingAdded(Emits(BeforeEnd(ms)));
  }

  lemma NothingAfterOne(ms: seq<Meaning>)
    requires |ms| <= 1
    ensures AfterEnd(ms) == []
  {
    if |ms| == 1 {
      CutAppend([], ms[0]);
      assert [] + [ms[0]] == ms;
    }
  }

  lemma AtMostOneLine(line: string, c: char)
    requires '\n' !in line
    ensures |SplitLines(line + [c]).complete| <= 1
  {
    assert (line + [c])[..|line|] == line;
  }

  /** The text deltas of every cut are those before the first end marker, when none come after it. */
  lemma {:induction false} SilentFeed(codec: Codec, chunks: seq<string>)
    requires Emits(AfterEnd(TextMeanings(codec, Concat(chunks)))) == []
    ensures DecodeState(codec, chunks).out == Emits(BeforeEnd(TextMeanings(codec, Concat(chunks))))
  {
    hide DecodeState, TextMeanings, Play, CutAtEnd, Concat, Emits, BeforeEnd, AfterEnd;
    if chunks == [] {
      SilentNothing(codec);
    } else {
      var (front, last) := (chunks[..|chunks| - 1], chunks[|chunks| - 1]);
      assert chunks == front + [last];
      var ms := TextMeanings(codec, Concat(front));
      var more := OneMoreChunk(codec, front, last);
      SilentParts(ms, more);
      SilentFeed(codec, front);
      PlayOut(DecodeState(codec, front), BeforeEnd(more));
    }
  }

  lemma SilentNothing(codec: Codec)
    ensures DecodeState(codec, []).out == [] && Emits(BeforeEnd(TextMeanings(codec, Concat([])))) == []
  {}

  lemma SilentParts(ms: seq<Meaning>, more: seq<Meaning>)
    requires Emits(AfterEnd(ms + more)) == []
    ensures Emits(AfterEnd(ms)) == []
    ensures Emits(BeforeEnd(ms + more)) == Emits(BeforeEnd(ms)) + Emits(BeforeEnd(more))
  {
    CutConcat(ms, more);
    if CutAtEnd(ms).ended {
      EmitsConcat(AfterEnd(ms), more);
      EmitsSplit(more);
    } else {
      CutWhole(ms);
      EmitsConcat(BeforeEnd(ms), BeforeEnd(more));
    }
  }

  lemma WholeAtOnce(codec: Codec, text: string)
    ensures DecodeState(codec, [text]).out == Emits(BeforeEnd(TextMeanings(codec, text)))
  {
    var more := OneMoreChunk(codec, [], text);
    assert [] + [text] == [text] && Concat([text]) == text;
    assert TextMeanings(codec, Concat([])) == [] && [] + more == more;
    PlayOut(INITIAL, BeforeEnd(more));
  }

  /** Text after the end marker shows up in some cutting, though not when the body comes at once. */
  lemma SomeCuttingDiffers(codec: Codec, text: string) returns (chunks: seq<string>)
    requires Emits(AfterEnd(TextMeanings(codec, text))) != []
    ensures Concat(chunks) == text && |DecodeState(codec, chunks).out| > |DecodeState(codec, [text]).out|
  {
    chunks := SingleCharacters(codec, text);
    EmitsSplit(TextMeanings(codec, text));
    WholeAtOnce(codec, text);
  }

  /** The text deltas are the same for every cutting of a body into chunks exactly when no line
      after the first end marker carries text. */
  lemma TextHidesChunkingExactly(codec: Codec, text: string)
    ensures Emits(AfterEnd(TextMeanings(codec, text))) == [] <==>
            forall chunks :: Concat(chunks) == text ==> DecodeState(codec, chunks).out == DecodeState(codec, [text]).out
  {
    if Emits(AfterEnd(TextMeanings(codec, text))) == [] {
      forall chunks | Concat(chunks) == text ensures DecodeState(codec, chunks).out == DecodeState(codec, [text]).out {
        assert Concat([text]) == text;
        SilentFeed(codec, [text]);
        SilentFeed(codec, chunks);
      }
    } else {
      var chunks := SomeCuttingDiffers(codec, text);
    }
  }
}
