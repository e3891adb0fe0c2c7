/**
 * Response bodies as streams of byte chunks: the reader that yields them, and
 * the streaming UTF-8 codec (`TextDecoder` with `{ stream: true }` and
 * `TextEncoder`) both the relay and the page run them through. The codec itself
 * is a parameter: its byte-level behaviour is not part of this model.
 */
module Streams {
  import opened Wrappers

  newtype byte = x: int | 0 <= x < 256

  type Bytes = seq<byte>

  /**
   * A streaming decoder and an encoder. `decode(carry + chunk)` gives the text of
   * every complete character and the bytes of a trailing incomplete one, which
   * the decoder keeps for its next call; `encode` turns text back into bytes.
   */
  datatype Utf8Codec = Utf8Codec(decode: Bytes -> (string, Bytes), encode: string -> Bytes)

  /** Re-encoding the decoded text and appending the kept bytes gives back the input. */
  ghost predicate Lossless(codec: Utf8Codec) {
    forall b :: codec.encode(codec.decode(b).0) + codec.decode(b).1 == b
  }

  /** The text one decoder, starting with `carry` kept, yields for each chunk in turn. */
  function Texts(codec: Utf8Codec, carry: Bytes, chunks: seq<Bytes>): (ts: seq<string>)
    ensures |ts| == |chunks|
    decreases |chunks|
  {
    if chunks == [] then []
    else
      var (text, kept) := codec.decode(carry + chunks[0]);
      [text] + Texts(codec, kept, chunks[1..])
  }

  /** The bytes the decoder still holds after the last chunk. */
  function FinalCarry(codec: Utf8Codec, carry: Bytes, chunks: seq<Bytes>): Bytes
    decreases |chunks|
  {
    if chunks == [] then carry
    else FinalCarry(codec, codec.decode(carry + chunks[0]).1, chunks[1..])
  }

  /** Every text encoded, one chunk per text. */
  function Encoded(codec: Utf8Codec, texts: seq<string>): (out: seq<Bytes>)
    ensures |out| == |texts|
    ensures forall i :: 0 <= i < |texts| ==> out[i] == codec.encode(texts[i])
  {
    seq(|texts|, i requires 0 <= i < |texts| => codec.encode(texts[i]))
  }

  /** The bytes of all chunks, in order. */
  function Flatten(chunks: seq<Bytes>): Bytes
    decreases |chunks|
  {
    if chunks == [] then [] else chunks[0] + Flatten(chunks[1..])
  }

  /** What one `reader.read()` resolves or rejects with. */
  datatype ReadResult = Chunk(value: Bytes) | Done | ReadError(message: string)

  /**
   * The reader of a response body: the chunks still to arrive, in order, and
   * how the stream ends once they are consumed (`None`: cleanly).
   */
  class ChunkReader {
    var pending: seq<Bytes>
    var fault: Option<string>

    constructor (chunks: seq<Bytes>, fault: Option<string>)
      ensures pending == chunks && this.fault == fault
    {
      pending := chunks;
      this.fault := fault;
    }

    /** `reader.read()`: the next chunk, else the end of the stream or its error. */
    method Read() returns (r: ReadResult)
      modifies this
      ensures fault == old(fault)
      ensures old(pending) != [] ==> r == Chunk(old(pending)[0]) && pending == old(pending)[1..]
      ensures old(pending) == [] ==> pending == []
      ensures old(pending) == [] ==> r == if fault.Some? then ReadError(fault.value) else Done
    {
      if pending != [] {
        r := Chunk(pending[0]);
        pending := pending[1..];
      } else if fault.Some? {
        r := ReadError(fault.value);
      } else {
        r := Done;
      }
    }
  }
}
