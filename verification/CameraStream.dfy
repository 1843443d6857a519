/**
  The camera media stream: the phone writes a preamble with a token and then JPEG frames,
  each after its length; the desktop checks the token and delivers the frames.
*/
module CameraStream {
  import opened Wrappers
  import opened Bytes
  import opened Streams

  const MAGIC: bytes := Ascii("LINKABLE_CAMERA_MJPEG_V1\n")

  const MAX_FRAME_BYTES: nat := 4 * 1024 * 1024

  // ---------------------------------------------------------------------------
  // The writer
  // ---------------------------------------------------------------------------

  /** The token length is written as a 16-bit number. */
  function Preamble(token: bytes): bytes {
    PreambleAfter(MAGIC, token)
  }

  function PreambleAfter(magic: bytes, token: bytes): bytes {
    magic + BigEndian(|token|, 2) + token
  }

  function FrameBytes(jpeg: bytes): bytes {
    BigEndian(|jpeg|, 4) + jpeg
  }

  function Frames(jpegs: seq<bytes>): bytes {
    if jpegs == [] then [] else FrameBytes(jpegs[0]) + Frames(jpegs[1..])
  }

  lemma {:induction false} FramesPush(jpegs: seq<bytes>, jpeg: bytes)
    ensures Frames(jpegs + [jpeg]) == Frames(jpegs) + FrameBytes(jpeg)
  {
    if jpegs == [] {
      assert [jpeg][1..] == [];
      assert [] + [jpeg] == [jpeg];
    } else {
      FramesPush(jpegs[1..], jpeg);
      FirstOfMore(jpegs, jpeg);
      Associates(FrameBytes(jpegs[0]), Frames(jpegs[1..]), FrameBytes(jpeg));
    }
  }

  lemma FirstOfMore(jpegs: seq<bytes>, jpeg: bytes)
    requires jpegs != []
    ensures (jpegs + [jpeg])[0] == jpegs[0] && (jpegs + [jpeg])[1..] == jpegs[1..] + [jpeg]
  {
  }

  lemma Associates(a: bytes, b: bytes, c: bytes)
    ensures a + b + c == a + (b + c)
  {
  }

  /** A frame that goes through the encrypted session. */
  datatype CameraFrame = CameraFrame(sequence: nat, jpeg: bytes)

  /** The shortest time between two frames. */
  function FrameGap(fps: int): (gap: int)
    ensures 0 <= gap <= 1000
  {
    1000 / if fps > 1 then fps else 1
  }

  /** It is the longest whole number of milliseconds that `fps` of them fit into a second. */
  lemma FrameGapIsLongest(fps: int, gap: nat)
    requires fps >= 1
    ensures gap <= FrameGap(fps) <==> gap * fps <= 1000
  {
    var q := 1000 / fps;
    assert 1000 == fps * q + 1000 % fps;
    if gap <= q { TimesMonotone(fps, gap, q); } else { TimesMonotone(fps, q + 1, gap); }
  }

  lemma TimesMonotone(k: nat, a: nat, b: nat)
    requires a <= b
    ensures a * k <= b * k
    ensures a * k == k * a && b * k == k * b
  {
    assert b * k == a * k + (b - a) * k;
  }

  /** Numbers that go up, the last of them at most `top`. */
  ghost predicate Rising(events: seq<CameraFrame>, top: nat) {
    && (forall i :: 0 <= i < |events| ==> 1 <= events[i].sequence <= top)
    && (forall i, j :: 0 <= i < j < |events| ==> events[i].sequence < events[j].sequence)
  }

  /** Times at least `gap` apart, the last of them at most `last`. */
  ghost predicate Spaced(times: seq<int>, gap: nat, last: int) {
    && (forall i :: 0 <= i < |times| ==> times[i] <= last)
    && (forall i, j :: 0 <= i < j < |times| ==> times[j] - times[i] >= gap)
  }

  class CameraWriter {
    const output: OutStream
    const token: bytes
    const fps: int
    const sessionTransport: bool
    var stopped: bool
    var lastFrameAtMs: int
    var frameSequence: nat
    var framesSent: nat
    var events: seq<CameraFrame>          // handed to the session
    ghost var frames: seq<bytes>          // written to the socket
    ghost var times: seq<int>             // when frames were converted

    ghost predicate Valid()
      reads this, output
    {
      && (if sessionTransport then output.written == [] && frames == []
          else output.written == Preamble(token) + Frames(frames))
      && framesSent == |frames| + |events|
      && Rising(events, frameSequence)
      && Spaced(times, FrameGap(fps), lastFrameAtMs)
    }

    constructor (output: OutStream, token: bytes, fps: int, sessionTransport: bool)
      requires output.written == []
      modifies output
      ensures Valid() && this.output == output && this.token == token && this.fps == fps
      ensures this.sessionTransport == sessionTransport && !stopped && lastFrameAtMs == 0
      ensures frames == [] && events == [] && times == []
    {
      this.output, this.token, this.fps, this.sessionTransport := output, token, fps, sessionTransport;
      stopped, lastFrameAtMs, frameSequence, framesSent, events := false, 0, 0, 0, [];
      frames, times := [], [];
      new;
      if !sessionTransport {
        output.Write(MAGIC);
        output.Write(BigEndian(|token|, 2));
        output.Write(token);
      }
    }

    method Stop()
      requires Valid()
      modifies this`stopped
      ensures Valid() && stopped
    {
      stopped := true;
    }

    /** A frame is converted unless the stream has stopped or the last one is too recent. */
    predicate IsDue(now: int)
      reads this
    {
      !stopped && now - lastFrameAtMs >= FrameGap(fps)
    }

    /**
      One image at the time `now`: when it is due and its JPEG not empty, one frame after
      its length, or one numbered frame for the session if its queue has room.
     */
    method ProcessFrame(now: int, jpeg: bytes, hasRoom: bool)
      requires Valid()
      modifies this, output
      ensures Valid() && stopped == old(stopped)
      ensures old(stopped) || now - old(lastFrameAtMs) < FrameGap(fps) ==>
                frames == old(frames) && events == old(events) && times == old(times)
      ensures var sent := old(IsDue(now)) && jpeg != [];
        && times == (if old(IsDue(now)) then old(times) + [now] else old(times))
        && lastFrameAtMs == (if old(IsDue(now)) then now else old(lastFrameAtMs))
        && frames == (if sent && !sessionTransport then old(frames) + [jpeg] else old(frames))
        && frameSequence == old(frameSequence) + (if sent && sessionTransport then 1 else 0)
        && events == (if sent && sessionTransport && hasRoom
                      then old(events) + [CameraFrame(frameSequence, jpeg)] else old(events))
    {
      if stopped { return; }
      if now - lastFrameAtMs < FrameGap(fps) { return; }
      lastFrameAtMs := now;
      times := times + [now];
      if jpeg == [] { return; }
      if sessionTransport {
        frameSequence := frameSequence + 1;
        if hasRoom {
          events := events + [CameraFrame(frameSequence, jpeg)];
          framesSent := framesSent + 1;
        }
        return;
      }
      WriteFrame(jpeg);
      framesSent := framesSent + 1;
    }

    method WriteFrame(jpeg: bytes)
      requires output.written == Preamble(token) + Frames(frames)
      modifies this`frames, output
      ensures output.written == Preamble(token) + Frames(frames) && frames == old(frames) + [jpeg]
    {
      FramesPush(frames, jpeg);
      Associates(output.written, BigEndian(|jpeg|, 4), jpeg);
      Associates(Preamble(token), Frames(frames), FrameBytes(jpeg));
      output.Write(BigEndian(|jpeg|, 4));
      output.Write(jpeg);
      frames := frames + [jpeg];
    }
  }

  // ---------------------------------------------------------------------------
  // The reader
  // ---------------------------------------------------------------------------

  datatype Ending = Stopped | InvalidPreamble | TokenMismatch | InvalidFrameSize | EndOfStream

  datatype Delivery = Delivery(frames: seq<bytes>, ending: Ending) {
    function After(earlier: seq<bytes>): Delivery {
      Delivery(earlier + frames, ending)
    }
  }

  /** The frames of a stream, when the stop flag is found set after `stopAfter` of them. */
  function ParseFrames(rest: bytes, stopAfter: nat): Delivery
    decreases |rest|
  {
    if stopAfter == 0 then Delivery([], Stopped)
    else if |rest| < 4 then Delivery([], EndOfStream)
    else
      var size := FromBigEndian(rest[..4]);
      if size <= 0 || size > MAX_FRAME_BYTES then Delivery([], InvalidFrameSize)
      else if |rest| - 4 < size then Delivery([], EndOfStream)
      else ParseFrames(rest[4..][size..], stopAfter - 1).After([rest[4..][..size]])
  }

  lemma AfterBoth(a: seq<bytes>, b: seq<bytes>, d: Delivery)
    ensures d.After(b).After(a) == d.After(a + b)
  {
    assert a + (b + d.frames) == a + b + d.frames;
  }

  lemma AfterNothing(a: seq<bytes>, ending: Ending, d: Delivery)
    ensures Delivery([], ending).After(a) == Delivery(a, ending) && d.After([]) == d
  {
    assert a + [] == a && [] + d.frames == d.frames;
  }

  /** What the receiver with token `expected` makes of a byte stream; `decode` is UTF-8 decoding with replacement. */
  function ParseStream(decode: bytes -> string, expected: string, rest: bytes, stopAfter: nat): Delivery {
    ParseAfter(MAGIC, decode, expected, rest, stopAfter)
  }

  function ParseAfter(magic: bytes, decode: bytes -> string, expected: string, rest: bytes, stopAfter: nat): Delivery {
    if |rest| < |magic| then Delivery([], EndOfStream)
    else if rest[..|magic|] != magic then Delivery([], InvalidPreamble)
    else ParseToken(decode, expected, rest[|magic|..], stopAfter)
  }

  function ParseToken(decode: bytes -> string, expected: string, rest: bytes, stopAfter: nat): Delivery {
    if |rest| < 2 then Delivery([], EndOfStream)
    else
      var length := FromBigEndian(rest[..2]);
      if |rest| - 2 < length then Delivery([], EndOfStream)
      else if decode(rest[2..][..length]) != expected then Delivery([], TokenMismatch)
      else ParseFrames(rest[2..][length..], stopAfter)
  }

  /** The read loop, over a stream that may split the bytes anywhere, until the stop flag is set. */
  method ReadFrames(client: InStream, stopAfter: nat) returns (frames: seq<bytes>, ending: Ending)
    modifies client
    ensures Delivery(frames, ending) == ParseFrames(old(client.rest), stopAfter)
  {
    frames := [];
    ghost var more := ParseFrames(client.rest, stopAfter);
    AfterNothing([], Stopped, more);
    while |frames| < stopAfter
      invariant |frames| <= stopAfter && more == ParseFrames(client.rest, stopAfter - |frames|)
      invariant ParseFrames(old(client.rest), stopAfter) == more.After(frames)
      decreases |client.rest|
    {
      AfterNothing(frames, more.ending, more);
      var header := ReadExact(client, 4);
      if header.None? { return frames, EndOfStream; }
      var size := FromBigEndian(header.value);
      if size <= 0 || size > MAX_FRAME_BYTES { return frames, InvalidFrameSize; }
      var frame := ReadExact(client, size);
      if frame.None? { return frames, EndOfStream; }
      more := ParseFrames(client.rest, stopAfter - |frames| - 1);
      AfterBoth(frames, [frame.value], more);
      frames := frames + [frame.value];
    }
    AfterNothing(frames, Stopped, more);
    return frames, Stopped;
  }

  method ReadClient(client: InStream, decode: bytes -> string, expected: string, stopAfter: nat)
    returns (frames: seq<bytes>, ending: Ending)
    modifies client
    ensures Delivery(frames, ending) == ParseStream(decode, expected, old(client.rest), stopAfter)
  {
    var magic := ReadExact(client, |MAGIC|);
    if magic.None? { return [], EndOfStream; }
    if magic.value != MAGIC { return [], InvalidPreamble; }
    var header := ReadExact(client, 2);
    if header.None? { return [], EndOfStream; }
    var tokenBytes := ReadExact(client, FromBigEndian(header.value));
    if tokenBytes.None? { return [], EndOfStream; }
    if decode(tokenBytes.value) != expected { return [], TokenMismatch; }
    frames, ending := ReadFrames(client, stopAfter);
  }

  // ---------------------------------------------------------------------------
  // Round trip
  // ---------------------------------------------------------------------------

  predicate Fits(jpeg: bytes) {
    0 < |jpeg| <= MAX_FRAME_BYTES
  }

  predicate Deliverable(jpegs: seq<bytes>) {
    forall i :: 0 <= i < |jpegs| ==> Fits(jpegs[i])
  }

  lemma ParseOneFrame(jpeg: bytes, more: bytes, stopAfter: nat)
    requires |jpeg| < Pow256(4) && stopAfter > 0
    ensures ParseFrames(FrameBytes(jpeg) + more, stopAfter)
         == if Fits(jpeg) then ParseFrames(more, stopAfter - 1).After([jpeg]) else Delivery([], InvalidFrameSize)
  {
    var all := FrameBytes(jpeg) + more;
    TakeDrop(BigEndian(|jpeg|, 4), jpeg + more);
    assert all == BigEndian(|jpeg|, 4) + (jpeg + more);
    DecodeEncode(|jpeg|, 4);
    TakeDrop(jpeg, more);
  }

  /** One byte to four mebibytes. */
  lemma FitsExactly(jpeg: bytes)
    ensures Fits(jpeg) <==> 1 <= |jpeg| <= 4_194_304
  {
  }

  /** All frames, or the frames before the stop or the first that is empty or too long. */
  predicate DeliversUpToMisfit(jpegs: seq<bytes>, stopAfter: nat, d: Delivery) {
    && d.frames <= jpegs && |d.frames| <= stopAfter
    && Deliverable(d.frames)
    && if |d.frames| == stopAfter then d.ending == Stopped
       else if |d.frames| == |jpegs| then d.ending == EndOfStream
       else !Fits(jpegs[|d.frames|]) && d.ending == InvalidFrameSize
  }

  lemma DeliversOneMore(jpeg: bytes, jpegs: seq<bytes>, stopAfter: nat, d: Delivery)
    requires Fits(jpeg) && stopAfter > 0 && DeliversUpToMisfit(jpegs, stopAfter - 1, d)
    ensures DeliversUpToMisfit([jpeg] + jpegs, stopAfter, d.After([jpeg]))
  {
  }

  lemma {:induction false} FramesRoundTrip(jpegs: seq<bytes>, stopAfter: nat)
    requires forall i :: 0 <= i < |jpegs| ==> |jpegs[i]| < Pow256(4)
    ensures DeliversUpToMisfit(jpegs, stopAfter, ParseFrames(Frames(jpegs), stopAfter))
    decreases |jpegs|
  {
    if jpegs != [] && stopAfter > 0 {
      ParseOneFrame(jpegs[0], Frames(jpegs[1..]), stopAfter);
      FramesRoundTrip(jpegs[1..], stopAfter - 1);
      if Fits(jpegs[0]) {
        DeliversOneMore(jpegs[0], jpegs[1..], stopAfter, ParseFrames(Frames(jpegs[1..]), stopAfter - 1));
        assert [jpegs[0]] + jpegs[1..] == jpegs;
      }
    }
  }

  lemma TwoBytes(n: nat)
    ensures FromBigEndian(BigEndian(n, 2)) == n % 0x1_0000
  {
    var a := n / 0x100 % 0x100;
    assert BigEndian(n / 0x100, 1) == BigEndian(n / 0x100 / 0x100, 0) + [a] == [a];
    assert [a][..0] == [];
    assert FromBigEndian([a]) == FromBigEndian([]) * 0x100 + a;
    assert BigEndian(n, 2)[..1] == [a];
  }

  /** What the reader finds after the magic: the token cut to its length modulo 2^16. */
  lemma ParseWrittenToken(decode: bytes -> string, expected: string, token: bytes, more: bytes, stopAfter: nat)
    ensures var length := |token| % 0x1_0000;
      ParseToken(decode, expected, BigEndian(|token|, 2) + (token + more), stopAfter)
      == if decode(token[..length]) != expected then Delivery([], TokenMismatch)
         else ParseFrames(token[length..] + more, stopAfter)
  {
    var length := |token| % 0x1_0000;
    TwoBytes(|token|);
    TakeDrop(BigEndian(|token|, 2), token + more);
    assert (token + more)[..length] == token[..length];
    assert (token + more)[length..] == token[length..] + more;
  }

  lemma PreambleThen(magic: bytes, token: bytes, more: bytes)
    ensures PreambleAfter(magic, token) + more == magic + (BigEndian(|token|, 2) + (token + more))
  {
    var length := BigEndian(|token|, 2);
    Associates(magic + length, token, more);
    Associates(magic, length, token + more);
  }

  lemma ParseSkips(magic: bytes, decode: bytes -> string, expected: string, all: bytes, rest: bytes, stopAfter: nat)
    requires all == magic + rest
    ensures ParseAfter(magic, decode, expected, all, stopAfter) == ParseToken(decode, expected, rest, stopAfter)
  {
    TakeDrop(magic, rest);
  }

  lemma DecodeCut(decode: bytes -> string, token: string, length: nat)
    requires forall s | IsAscii(s) :: decode(Ascii(s)) == s
    requires IsAscii(token) && length <= |token|
    ensures decode(Ascii(token)[..length]) == token[..length]
  {
    assert Ascii(token)[..length] == Ascii(token[..length]);
  }

  /** The token that was written is the one found exactly when its length was not cut. */
  lemma ParseAsciiToken(decode: bytes -> string, token: string, more: bytes, stopAfter: nat)
    requires forall s | IsAscii(s) :: decode(Ascii(s)) == s
    requires IsAscii(token)
    ensures ParseToken(decode, token, BigEndian(|token|, 2) + (Ascii(token) + more), stopAfter)
         == if |token| < 0x1_0000 then ParseFrames(more, stopAfter) else Delivery([], TokenMismatch)
  {
    var t, length := Ascii(token), |token| % 0x1_0000;
    ParseWrittenToken(decode, token, t, more, stopAfter);
    DecodeCut(decode, token, length);
    if |token| < 0x1_0000 {
      assert t[length..] + more == more;
    }
  }

  /**
    Exactly when a stream written with the expected ASCII token delivers all its frames in
    order and ends cleanly: the token length fits its 16 bits, every frame has between one
    byte and four mebibytes, and the stop flag is not set before.
   */
  lemma {:induction false} StreamRoundTripExactly(decode: bytes -> string, token: string, jpegs: seq<bytes>, stopAfter: nat)
    requires forall s | IsAscii(s) :: decode(Ascii(s)) == s
    requires IsAscii(token) && forall i :: 0 <= i < |jpegs| ==> |jpegs[i]| < Pow256(4)
    ensures ParseStream(decode, token, Preamble(Ascii(token)) + Frames(jpegs), stopAfter) == Delivery(jpegs, EndOfStream)
       <==> |token| < 0x1_0000 && Deliverable(jpegs) && |jpegs| < stopAfter
  {
    var t, more := Ascii(token), Frames(jpegs);
    PreambleThen(MAGIC, t, more);
    ParseSkips(MAGIC, decode, token, Preamble(t) + more, BigEndian(|t|, 2) + (t + more), stopAfter);
    ParseAsciiToken(decode, token, more, stopAfter);
    FramesRoundTrip(jpegs, stopAfter);
  }
}
