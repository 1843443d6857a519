/** The sending side of file transfer, on the phone and on the desktop. */
module FileSending {
  import opened Bytes
  import opened Streams
  import opened Messages
  import opened FileReceiving
  import opened TransportSequence

  /** The chunks of a file cut into `pieces`, each at its running offset. */
  function ChunksOf(id: TransferId, pieces: seq<bytes>): (chunks: seq<Message>)
    ensures |chunks| == |pieces|
  {
    if pieces == [] then []
    else
      var before := pieces[..|pieces| - 1];
      ChunksOf(id, before) + [Chunk(id, |Concat(before)|, pieces[|pieces| - 1])]
  }

  /** Everything a sender emits for one file. */
  function TransferOf(id: TransferId, name: FileName, size: nat, sha: string, pieces: seq<bytes>): seq<Message> {
    [Offer(id, name, size)] + ChunksOf(id, pieces) + [Complete(id, sha)]
  }

  function MessagesOf(envelopes: seq<Envelope>): (messages: seq<Message>)
    ensures |messages| == |envelopes|
  {
    seq(|envelopes|, i requires 0 <= i < |envelopes| => envelopes[i].message)
  }

  /** A file in pieces that are not empty and not longer than the chunk size. */
  predicate IsSplit(content: bytes, chunkSize: nat, pieces: seq<bytes>) {
    && Concat(pieces) == content
    && forall i :: 0 <= i < |pieces| ==> 0 < |pieces[i]| <= chunkSize
  }

  predicate Consecutive(envelopes: seq<Envelope>, first: nat) {
    forall i :: 0 <= i < |envelopes| ==> envelopes[i].sequence == first + i
  }

  /** The offer and the chunks of `pieces` have been emitted. */
  ghost predicate EmittedTo(sent: seq<Envelope>, id: TransferId, name: FileName, size: nat, pieces: seq<bytes>, first: nat) {
    MessagesOf(sent) == [Offer(id, name, size)] + ChunksOf(id, pieces) && Consecutive(sent, first)
  }

  lemma NextChunk(sent: seq<Envelope>, id: TransferId, name: FileName, size: nat, pieces: seq<bytes>, first: nat, data: bytes)
    requires EmittedTo(sent, id, name, size, pieces, first)
    ensures EmittedTo(sent + [Envelope(first + |sent|, Chunk(id, |Concat(pieces)|, data))],
                      id, name, size, pieces + [data], first)
  {
    var e := Envelope(first + |sent|, Chunk(id, |Concat(pieces)|, data));
    assert (pieces + [data])[..|pieces|] == pieces;
    assert MessagesOf(sent + [e]) == MessagesOf(sent) + [e.message];
  }

  lemma NextPiece(content: bytes, chunkSize: nat, pieces: seq<bytes>, data: bytes)
    requires IsSplit(content, chunkSize, pieces) && 0 < |data| <= chunkSize
    ensures IsSplit(content + data, chunkSize, pieces + [data])
  {
    assert (pieces + [data])[..|pieces|] == pieces;
  }

  /** The phone: each read fills as much of one reused buffer as the platform likes. */
  method SendFromPhone(input: InStream, id: TransferId, name: FileName, size: nat, sha: string,
                       chunkSize: nat, numbers: SequenceNumbers)
    returns (sent: seq<Envelope>, ghost pieces: seq<bytes>)
    requires chunkSize > 0 && size == |input.rest|
    modifies input, numbers
    ensures MessagesOf(sent) == TransferOf(id, name, size, sha, pieces)
    ensures IsSplit(old(input.rest), chunkSize, pieces)
    ensures Consecutive(sent, old(numbers.next)) && numbers.next == old(numbers.next) + |sent|
  {
    var n := numbers.Next();
    sent := [Envelope(n, Offer(id, name, size))];
    pieces := [];
    ghost var done: bytes := [];
    var offset := 0;
    var buffer := new byte[chunkSize];
    while true
      invariant done + input.rest == old(input.rest) && offset == |done|
      invariant IsSplit(done, chunkSize, pieces)
      invariant EmittedTo(sent, id, name, size, pieces, old(numbers.next))
      invariant numbers.next == old(numbers.next) + |sent|
      decreases |input.rest|
    {
      var read := ReadInto(input, buffer);
      if read < 0 { break; }
      var data := buffer[..read];
      n := numbers.Next();
      NextChunk(sent, id, name, size, pieces, old(numbers.next), data);
      NextPiece(done, chunkSize, pieces, data);
      sent := sent + [Envelope(n, Chunk(id, offset, data))];
      offset := offset + read;
      pieces := pieces + [data];
      done := done + data;
    }
    assert done == old(input.rest);
    n := numbers.Next();
    sent := sent + [Envelope(n, Complete(id, sha))];
  }

  /** All pieces but the last are as long as allowed. */
  ghost predicate FullPieces(pieces: seq<bytes>, chunkSize: nat) {
    forall i :: 0 <= i < |pieces| - 1 ==> |pieces[i]| == chunkSize
  }

  ghost predicate AllFull(pieces: seq<bytes>, chunkSize: nat) {
    forall i :: 0 <= i < |pieces| ==> |pieces[i]| == chunkSize
  }

  lemma PushPiece(pieces: seq<bytes>, chunkSize: nat, data: bytes)
    requires AllFull(pieces, chunkSize)
    ensures FullPieces(pieces + [data], chunkSize)
    ensures |data| == chunkSize ==> AllFull(pieces + [data], chunkSize)
  {
  }

  /** The desktop: each read of the file is full unless the file ends. */
  method SendFromDesktop(content: bytes, id: TransferId, name: FileName, sha: string,
                         chunkSize: nat, numbers: SequenceNumbers)
    returns (sent: seq<Envelope>, ghost pieces: seq<bytes>)
    requires chunkSize > 0
    modifies numbers
    ensures MessagesOf(sent) == TransferOf(id, name, |content|, sha, pieces)
    ensures IsSplit(content, chunkSize, pieces) && FullPieces(pieces, chunkSize)
    ensures Consecutive(sent, old(numbers.next)) && numbers.next == old(numbers.next) + |sent|
  {
    var n := numbers.Next();
    sent := [Envelope(n, Offer(id, name, |content|))];
    pieces := [];
    var offset := 0;
    while offset < |content|
      invariant offset <= |content|
      invariant IsSplit(content[..offset], chunkSize, pieces)
      invariant FullPieces(pieces, chunkSize)
      invariant offset < |content| ==> AllFull(pieces, chunkSize)
      invariant EmittedTo(sent, id, name, |content|, pieces, old(numbers.next))
      invariant numbers.next == old(numbers.next) + |sent|
    {
      var end := if offset + chunkSize <= |content| then offset + chunkSize else |content|;
      var data := content[offset..end];
      n := numbers.Next();
      NextChunk(sent, id, name, |content|, pieces, old(numbers.next), data);
      NextPiece(content[..offset], chunkSize, pieces, data);
      assert content[..offset] + data == content[..end];
      PushPiece(pieces, chunkSize, data);
      sent := sent + [Envelope(n, Chunk(id, offset, data))];
      offset := end;
      pieces := pieces + [data];
    }
    assert content[..offset] == content;
    n := numbers.Next();
    sent := sent + [Envelope(n, Complete(id, sha))];
  }
}
