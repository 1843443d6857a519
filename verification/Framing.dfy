/**
  The plain framing used before a session is encrypted: each envelope after its length. The
  envelope's own encoding is a parameter.
 */
module Framing {
  import opened Wrappers
  import opened Bytes
  import opened Streams
  import opened Messages

  const MAX_FRAME_SIZE: nat := 1_048_576

  type Serializer = Envelope -> bytes
  type Parser = bytes -> Option<Envelope>

  datatype ReadError = EndOfStream | InvalidFrameSize | Unparsable

  datatype Reading = Reading(result: Result<Envelope, ReadError>, rest: bytes)

  function ReadOne(parse: Parser, limit: nat, rest: bytes): Reading {
    if |rest| < 4 then Reading(Err(EndOfStream), [])
    else
      var size, body := FromBigEndian(rest[..4]), rest[4..];
      if size <= 0 || size > limit then Reading(Err(InvalidFrameSize), body)
      else if |body| < size then Reading(Err(EndOfStream), [])
      else
        var envelope := parse(body[..size]);
        Reading(if envelope.None? then Err(Unparsable) else Ok(envelope.value), body[size..])
  }

  method ReadEnvelope(stream: InStream, parse: Parser, limit: nat := MAX_FRAME_SIZE)
    returns (r: Result<Envelope, ReadError>)
    modifies stream
    ensures Reading(r, stream.rest) == ReadOne(parse, limit, old(stream.rest))
  {
    var header := ReadExact(stream, 4);
    if header.None? { return Err(EndOfStream); }
    var size := FromBigEndian(header.value);
    if size <= 0 || size > limit { return Err(InvalidFrameSize); }
    var payload := ReadExact(stream, size);
    if payload.None? { return Err(EndOfStream); }
    var envelope := parse(payload.value);
    return if envelope.None? then Err(Unparsable) else Ok(envelope.value);
  }

  function Frame(serialize: Serializer, e: Envelope): bytes {
    BigEndian(|serialize(e)|, 4) + serialize(e)
  }

  function Frames(serialize: Serializer, sent: seq<Envelope>): bytes {
    if sent == [] then [] else Frame(serialize, sent[0]) + Frames(serialize, sent[1..])
  }

  /** Writes one frame; a payload whose length does not fit 32 bits cannot be packed. */
  method WriteEnvelope(stream: OutStream, serialize: Serializer, e: Envelope) returns (ok: bool)
    modifies stream
    ensures ok <==> |serialize(e)| < Pow256(4)
    ensures stream.written == if ok then old(stream.written) + Frame(serialize, e) else old(stream.written)
  {
    Widths();
    var payload := serialize(e);
    if |payload| >= 0x1_0000_0000 { return false; }
    stream.Write(BigEndian(|payload|, 4));
    stream.Write(payload);
    return true;
  }

  // ---------------------------------------------------------------------------
  // Round trip
  // ---------------------------------------------------------------------------

  /** The reader takes an envelope whose encoding is not empty and within its limit. */
  predicate Fits(serialize: Serializer, limit: nat, e: Envelope) {
    1 <= |serialize(e)| <= limit
  }

  /** How many of the envelopes come before the first that does not fit. */
  function FittingPrefix(serialize: Serializer, limit: nat, sent: seq<Envelope>): (n: nat)
    ensures n <= |sent| && (forall i :: 0 <= i < n ==> Fits(serialize, limit, sent[i]))
    ensures n < |sent| ==> !Fits(serialize, limit, sent[n])
  {
    if sent == [] || !Fits(serialize, limit, sent[0]) then 0
    else 1 + FittingPrefix(serialize, limit, sent[1..])
  }

  /** Everything a reader gets out of a stream, and the error that ends it. */
  function ReadAll(parse: Parser, limit: nat, rest: bytes): (seq<Envelope>, ReadError)
    decreases |rest|
  {
    var r := ReadOne(parse, limit, rest);
    match r.result
    case Err(error) => ([], error)
    case Ok(e) =>
      var (more, error) := ReadAll(parse, limit, r.rest);
      ([e] + more, error)
  }

  /** What becomes of any payload at all: refused for its size or its content, or returned as what it parses to. */
  lemma ReadAnyFrame(parse: Parser, limit: nat, payload: bytes, more: bytes)
    requires |payload| < 0x1_0000_0000
    ensures ReadOne(parse, limit, BigEndian(|payload|, 4) + payload + more)
         == if payload == [] || |payload| > limit then Reading(Err(InvalidFrameSize), payload + more)
            else Reading(if parse(payload).None? then Err(Unparsable) else Ok(parse(payload).value), more)
  {
    var header := BigEndian(|payload|, 4);
    assert header + payload + more == header + (payload + more);
    TakeDrop(header, payload + more);
    Widths();
    DecodeEncode(|payload|, 4);
    TakeDrop(payload, more);
  }

  /** Fewer bytes than a frame announces are the end of the stream. */
  lemma ReadShort(parse: Parser, limit: nat, size: nat, part: bytes)
    requires 0 < size <= limit && size < 0x1_0000_0000 && |part| < size
    ensures ReadOne(parse, limit, BigEndian(size, 4) + part) == Reading(Err(EndOfStream), [])
  {
    TakeDrop(BigEndian(size, 4), part);
    Widths();
    DecodeEncode(size, 4);
  }

  lemma ReadFrame(serialize: Serializer, parse: Parser, limit: nat, e: Envelope, more: bytes)
    requires parse(serialize(e)) == Some(e) && |serialize(e)| < Pow256(4)
    ensures var r := ReadOne(parse, limit, Frame(serialize, e) + more);
      if Fits(serialize, limit, e) then r == Reading(Ok(e), more) else r.result == Err(InvalidFrameSize)
  {
    var payload := serialize(e);
    var header := BigEndian(|payload|, 4);
    assert Frame(serialize, e) + more == header + (payload + more);
    TakeDrop(header, payload + more);
    DecodeEncode(|payload|, 4);
    TakeDrop(payload, more);
  }

  /** The reader returns what was sent up to the first envelope that is empty or over the limit. */
  lemma {:induction false} FramesRoundTrip(serialize: Serializer, parse: Parser, limit: nat, sent: seq<Envelope>)
    requires forall e <- sent :: parse(serialize(e)) == Some(e) && |serialize(e)| < Pow256(4)
    ensures var n := FittingPrefix(serialize, limit, sent);
      ReadAll(parse, limit, Frames(serialize, sent))
      == (sent[..n], if n == |sent| then EndOfStream else InvalidFrameSize)
  {
    if sent != [] {
      var e, more := sent[0], sent[1..];
      assert e in sent;
      ReadFrame(serialize, parse, limit, e, Frames(serialize, more));
      FramesRoundTrip(serialize, parse, limit, more);
      var n := FittingPrefix(serialize, limit, sent);
      if n > 0 { assert sent[..n] == [e] + more[..n - 1]; }
    }
  }
}
