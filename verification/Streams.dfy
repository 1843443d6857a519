/** Byte streams whose reads may return less than was asked for. */
module Streams {
  import opened Wrappers
  import opened Bytes

  class InStream {
    var rest: bytes              // what has not been read yet, up to the end of the stream

    constructor (content: bytes)
      ensures rest == content
    {
      rest := content;
    }

    /** One read: at least one byte unless the stream is at its end, and never more than asked for. */
    method Read(limit: nat) returns (chunk: bytes)
      requires limit > 0
      modifies this
      ensures old(rest) == chunk + rest
      ensures |chunk| <= limit
      ensures chunk == [] <==> old(rest) == []
    {
      if rest == [] { return []; }
      var n :| 1 <= n <= limit && n <= |rest|;
      chunk := rest[..n];
      rest := rest[n..];
      assert old(rest) == chunk + rest;
    }
  }

  /** One read into a buffer: the number of bytes read, or -1 at the end of the stream. */
  method ReadInto(stream: InStream, buffer: array<byte>) returns (n: int)
    requires buffer.Length > 0
    modifies stream, buffer
    ensures n == -1 <==> old(stream.rest) == []
    ensures n == -1 ==> stream.rest == []
    ensures n != -1 ==> 1 <= n <= buffer.Length && buffer[..n] + stream.rest == old(stream.rest)
  {
    var chunk := stream.Read(buffer.Length);
    if chunk == [] { return -1; }
    forall i | 0 <= i < |chunk| { buffer[i] := chunk[i]; }
    assert buffer[..|chunk|] == chunk;
    return |chunk|;
  }

  class OutStream {
    var written: bytes

    constructor ()
      ensures written == []
    {
      written := [];
    }

    method Write(data: bytes)
      modifies this
      ensures written == old(written) + data
    {
      written := written + data;
    }
  }

  /**
    Reads exactly `length` bytes however the stream splits them; `None` stands for the
    end-of-stream error, after which the stream is used up.
   */
  method ReadExact(stream: InStream, length: nat) returns (data: Option<bytes>)
    modifies stream
    ensures if length <= |old(stream.rest)|
            then data == Some(old(stream.rest)[..length]) && stream.rest == old(stream.rest)[length..]
            else data == None && stream.rest == []
  {
    var buffer: bytes := [];
    while |buffer| < length
      invariant buffer + stream.rest == old(stream.rest)
      invariant |buffer| <= length
    {
      var chunk := stream.Read(length - |buffer|);
      if chunk == [] { return None; }
      buffer := buffer + chunk;
    }
    TakeDrop(buffer, stream.rest);
    return Some(buffer);
  }
}
