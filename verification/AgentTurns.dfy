/** From the bytes of the provider's responses to the transcripts both agent loops send. */
module AgentTurns {
  import opened Prelude
  import opened Stream
  import A = AnthropicStream
  import opened ToolLoops
  import Text

  /** The bytes of one streamed turn: the message, its payloads, its frames, its chunks. */
  datatype Wire = Wire(message: A.WireMessage, frames: seq<A.Frame>, chunks: seq<string>)

  /** Turn `i` of this world is the message `resp`: complete on one side, streamed as these bytes on
      the other. */
  ghost predicate Streams(codec: A.Codec, w: World, i: nat, resp: A.ApiResponse, wire: Wire) {
    w.turn(i) == Ok(A.Parsed(resp)) &&
    w.stream(i).result.Ok? && w.stream(i).events == A.Decode(codec, wire.chunks) &&
    A.CarriesMessage(codec, wire.message, resp) && A.Meant(wire.frames) == A.MessageFrames(wire.message) &&
    A.AllClean(wire.frames) && Text.Concat(wire.chunks) == A.FramesText(wire.frames)
  }

  /** Whatever messages the model answers with, however their text and tool inputs are cut into
      deltas and their bytes into chunks, the streaming loop and the loop over complete responses
      send the provider the same transcripts, each made of the start and matched exchanges. */
  lemma LoopsAgreeOnAnyBytes(
      codec: A.Codec, w: World, start: seq<Message>, resp: nat -> A.ApiResponse, wire: nat -> Wire)
    requires forall i: nat :: i < MAX_ITERS ==> Streams(codec, w, i, resp(i), wire(i))
    ensures var sent := StreamRun(w, Begin(start), 0).0;
            sent == Take(ToolRun(w, start, 0).0, MAX_ITERS) &&
            forall k :: 0 <= k < |sent| ==> Paired(start, sent[k])
  {
    forall i: nat | i < MAX_ITERS ensures SameTurn(w.turn(i), w.stream(i)) {
      assert Streams(codec, w, i, resp(i), wire(i));
      A.StreamingRefinesResponse(codec, resp(i), wire(i).message, wire(i).frames, wire(i).chunks);
    }
    LoopsSendTheSame(w, start);
    StreamSentIsPaired(w, start, Begin(start), 0);
  }
}
