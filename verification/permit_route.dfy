/**
 * The `/api/get-permit-info` route: it checks the jurisdiction fields, asks the
 * chat-completion service about an EV-charger permit with a fixed prompt, and
 * relays the service's event stream to the browser chunk by chunk.
 */
module PermitRoute {
  import opened Wrappers
  import opened Text
  import opened Streams

  datatype PermitRequest = PermitRequest(city: Field, county: Field, township: Field)

  /** The route's guard `!city || !county` lets the request through. */
  predicate HasLocation(req: PermitRequest) {
    Truthy(req.city) && Truthy(req.county)
  }

  /** A field inside a template literal: a missing one prints as "undefined". */
  function Interpolated(f: Field): string {
    match f
    case Some(s) => s
    case None => "undefined"
  }

  const Model := "gpt-4o"
  const SystemInstruction := "You are an AI that determines whether an electrical permit is needed for EV chargers."
  const PromptLead := "I am installing a 60-amp Level 2 EV charging station in "
  const PromptTail := ". Do I need an electrical permit and how much is the fee to the AHJ?"

  /**
   * The user message: the fixed sentence with city, county and township, in
   * that order, separated by ", ".
   */
  function UserPrompt(req: PermitRequest): (p: string)
    ensures |p| == |PromptLead| + |Interpolated(req.city)| + 2 + |Interpolated(req.county)| + 2
                   + |Interpolated(req.township)| + |PromptTail|
  {
    PromptLead + Interpolated(req.city) + ", " + Interpolated(req.county) + ", "
      + Interpolated(req.township) + PromptTail
  }

  /** Where each field and each ", " starts in the prompt, and that it is really there. */
  lemma PromptFieldsInOrder(req: PermitRequest)
    ensures var p, c, k, t := UserPrompt(req), Interpolated(req.city), Interpolated(req.county), Interpolated(req.township);
      && OccursAt(p, 0, PromptLead)
      && OccursAt(p, |PromptLead|, c)
      && OccursAt(p, |PromptLead| + |c|, ", ")
      && OccursAt(p, |PromptLead| + |c| + 2, k)
      && OccursAt(p, |PromptLead| + |c| + 2 + |k|, ", ")
      && OccursAt(p, |PromptLead| + |c| + 2 + |k| + 2, t)
      && OccursAt(p, |p| - |PromptTail|, PromptTail)
  {
    var p, c, k, t := UserPrompt(req), Interpolated(req.city), Interpolated(req.county), Interpolated(req.township);
    var i := |PromptLead| + |c| + 2;
    var j := i + |k| + 2;
    assert p[..|PromptLead|] == PromptLead;
    assert p[|PromptLead|..|PromptLead| + |c|] == c;
    assert p[i - 2..i] == ", ";
    assert p[i..i + |k|] == k;
    assert p[j - 2..j] == ", ";
    assert p[j..j + |t|] == t;
    assert p[|p| - |PromptTail|..] == PromptTail;
  }

  /** A request without a township passes the guard and asks about "undefined". */
  lemma MissingTownshipSaysUndefined(city: string, county: string)
    requires city != "" && county != ""
    ensures HasLocation(PermitRequest(Some(city), Some(county), None))
    ensures UserPrompt(PermitRequest(Some(city), Some(county), None))
      == PromptLead + city + ", " + county + ", undefined" + PromptTail
  {
    var head := PromptLead + city + ", " + county;
    assert ", " + "undefined" == ", undefined";
    assert head + ", " + "undefined" == head + ", undefined";
  }

  datatype Message = Message(role: string, content: string)

  /** The body sent to the chat-completion service. */
  datatype ChatRequest = ChatRequest(model: string, messages: seq<Message>, stream: bool)

  /** The chat request sent for a validated permit request: the fixed model, the system instruction, the user prompt, streamed. */
  function ChatRequestFor(req: PermitRequest): ChatRequest {
    ChatRequest(Model, [Message("system", SystemInstruction), Message("user", UserPrompt(req))], true)
  }

  /** How the call to the chat-completion service went: it threw, or it answered. */
  datatype Upstream = UpstreamThrew | UpstreamReplied(ok: bool, hasBody: bool)

  /** The route's answer: a JSON error, or the `text/event-stream` the relay fills. */
  datatype PermitResponse = JsonError(status: int, error: string) | EventStream

  const LocationRequired := "Location details are required"
  const UpstreamFailed := "Failed to get permit info"
  const InternalFailure := "Failed to retrieve permit information"

  /**
   * `POST`: `body` is the parsed request (`None` when `req.json()` throws) and
   * `upstream` the service's reply. Returns the response and the request sent
   * to the service, if one was sent.
   */
  function Post(body: Option<PermitRequest>, upstream: Upstream): (r: (PermitResponse, Option<ChatRequest>))
    ensures r.1.Some? <==> body.Some? && HasLocation(body.value)
    ensures r.1.Some? ==> r.1.value == ChatRequestFor(body.value)
    ensures r.0 == JsonError(400, LocationRequired) <==> body.Some? && !HasLocation(body.value)
    ensures r.0 == EventStream <==> r.1.Some? && upstream == UpstreamReplied(true, true)
    ensures r.0 == JsonError(500, UpstreamFailed) <==> r.1.Some? && upstream.UpstreamReplied? && !(upstream.ok && upstream.hasBody)
    ensures r.0 == JsonError(500, InternalFailure) <==> body.None? || (r.1.Some? && upstream.UpstreamThrew?)
  {
    match body
    case None => (JsonError(500, InternalFailure), None)
    case Some(req) =>
      if !HasLocation(req) then (JsonError(400, LocationRequired), None)
      else
        var sent := Some(ChatRequestFor(req));
        match upstream
        case UpstreamThrew => (JsonError(500, InternalFailure), sent)
        case UpstreamReplied(ok, hasBody) =>
          if !ok || !hasBody then (JsonError(500, UpstreamFailed), sent)
          else (EventStream, sent)
  }

  /** An empty township is not required: with city and county present the service is asked. */
  lemma TownshipOptional(city: string, county: string, township: Field, upstream: Upstream)
    requires city != "" && county != ""
    ensures Post(Some(PermitRequest(Some(city), Some(county), township)), upstream).1.Some?
  {
  }

  /** What happens to the outbound stream. */
  datatype StreamEvent = Enqueued(chunk: Bytes) | Closed | Errored(reason: string)

  /** The controller of the outbound `ReadableStream`: everything done to it, in order. */
  class StreamController {
    var log: seq<StreamEvent>

    constructor ()
      ensures log == []
    {
      log := [];
    }

    /** Chunks are accepted until the stream is closed or errored. */
    predicate Open()
      reads this
    {
      forall i :: 0 <= i < |log| ==> log[i].Enqueued?
    }

    /** `controller.enqueue`: appends one chunk to the output. */
    method Enqueue(chunk: Bytes)
      requires Open()
      modifies this
      ensures log == old(log) + [Enqueued(chunk)]
    {
      log := log + [Enqueued(chunk)];
    }

    /** `controller.close`: ends the output normally. */
    method Close()
      requires Open()
      modifies this
      ensures log == old(log) + [Closed]
    {
      log := log + [Closed];
    }

    /** The stream errors: what a rejected `start` promise does to it. */
    method Fail(reason: string)
      requires Open()
      modifies this
      ensures log == old(log) + [Errored(reason)]
    {
      log := log + [Errored(reason)];
    }
  }

  /** The chunks the relay enqueues for the given upstream chunks. */
  function RelayOutputs(codec: Utf8Codec, chunks: seq<Bytes>): (out: seq<Bytes>)
    ensures |out| == |chunks|
  {
    Encoded(codec, Texts(codec, [], chunks))
  }

  /** One `Enqueued` event per relayed chunk, in order. */
  function Enqueues(out: seq<Bytes>): (events: seq<StreamEvent>)
    ensures |events| == |out|
    ensures forall i :: 0 <= i < |out| ==> events[i] == Enqueued(out[i])
  {
    seq(|out|, i requires 0 <= i < |out| => Enqueued(out[i]))
  }

  /** How the outbound stream ends: closed when the upstream is done, errored when a read fails. */
  function Ending(fault: Option<string>): StreamEvent {
    match fault
    case None => Closed
    case Some(m) => Errored(m)
  }

  /**
   * The pump in `start(controller)`: read an upstream chunk, decode it with the
   * streaming decoder, re-encode it and enqueue it; close when the upstream is
   * done.
   */
  method Relay(upstream: ChunkReader, controller: StreamController, codec: Utf8Codec)
    requires controller.log == []
    modifies upstream, controller
    ensures controller.log == Enqueues(RelayOutputs(codec, old(upstream.pending))) + [Ending(upstream.fault)]
    ensures upstream.pending == [] && upstream.fault == old(upstream.fault)
  {
    ghost var all := upstream.pending;
    ghost var sent: seq<Bytes> := [];
    var carry: Bytes := [];
    while true
      invariant upstream.fault == old(upstream.fault)
      invariant controller.log == Enqueues(sent)
      invariant sent + Encoded(codec, Texts(codec, carry, upstream.pending)) == RelayOutputs(codec, all)
      decreases |upstream.pending|
    {
      ghost var before := upstream.pending;
      var r := upstream.Read();
      match r
      case Done =>
        controller.Close();
        assert sent == RelayOutputs(codec, all);
        return;
      case ReadError(m) =>
        controller.Fail(m);
        assert sent == RelayOutputs(codec, all);
        return;
      case Chunk(value) =>
        var (text, kept) := codec.decode(carry + value);
        var out := codec.encode(text);
        controller.Enqueue(out);
        RelayStep(codec, carry, before, sent, RelayOutputs(codec, all));
        EnqueuesSnoc(sent, out);
        carry := kept;
        sent := sent + [out];
    }
  }

  /** The pump's bookkeeping after one more chunk is relayed. */
  lemma RelayStep(codec: Utf8Codec, carry: Bytes, chunks: seq<Bytes>, sent: seq<Bytes>, total: seq<Bytes>)
    requires chunks != []
    requires sent + Encoded(codec, Texts(codec, carry, chunks)) == total
    ensures var (text, kept) := codec.decode(carry + chunks[0]);
      (sent + [codec.encode(text)]) + Encoded(codec, Texts(codec, kept, chunks[1..])) == total
  {
    var (text, kept) := codec.decode(carry + chunks[0]);
    var rest := Texts(codec, kept, chunks[1..]);
    assert Texts(codec, carry, chunks) == [text] + rest;
    assert Encoded(codec, [text] + rest) == [codec.encode(text)] + Encoded(codec, rest);
  }

  /** Enqueueing one more chunk adds one event at the end. */
  lemma EnqueuesSnoc(sent: seq<Bytes>, out: Bytes)
    ensures Enqueues(sent + [out]) == Enqueues(sent) + [Enqueued(out)]
  {
  }

  /**
   * Given a codec that loses nothing, the relayed bytes followed by whatever
   * the decoder still holds at the end are exactly the upstream bytes: as the
   * pump never flushes its decoder, what goes missing is `FinalCarry`, whatever
   * it holds. `Lossless` does not say what that is; a codec that decodes
   * nothing and keeps every byte meets it too, so with a real UTF-8 decoder the
   * intended reading (only an incomplete trailing character stays behind) is
   * not proved here.
   */
  lemma RelayPreservesBytes(codec: Utf8Codec, chunks: seq<Bytes>)
    requires Lossless(codec)
    ensures Flatten(RelayOutputs(codec, chunks)) + FinalCarry(codec, [], chunks) == Flatten(chunks)
  {
    RelayFromPreservesBytes(codec, [], chunks);
  }

  /** `RelayPreservesBytes` from any carried decoder state. */
  lemma {:induction false} RelayFromPreservesBytes(codec: Utf8Codec, carry: Bytes, chunks: seq<Bytes>)
    requires Lossless(codec)
    ensures Flatten(Encoded(codec, Texts(codec, carry, chunks))) + FinalCarry(codec, carry, chunks)
            == carry + Flatten(chunks)
    decreases |chunks|
  {
    if chunks != [] {
      var (text, kept) := codec.decode(carry + chunks[0]);
      var rest := Texts(codec, kept, chunks[1..]);
      RelayFromPreservesBytes(codec, kept, chunks[1..]);
      assert Encoded(codec, Texts(codec, carry, chunks)) == [codec.encode(text)] + Encoded(codec, rest);
      assert codec.encode(text) + kept == carry + chunks[0];
      calc {
        Flatten(Encoded(codec, Texts(codec, carry, chunks))) + FinalCarry(codec, carry, chunks);
        codec.encode(text) + Flatten(Encoded(codec, rest)) + FinalCarry(codec, kept, chunks[1..]);
        codec.encode(text) + (kept + Flatten(chunks[1..]));
        (carry + chunks[0]) + Flatten(chunks[1..]);
        carry + Flatten(chunks);
      }
    }
  }
}
