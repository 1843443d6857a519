/**
  The encrypted channel of a session.  Every frame is a four-byte length, an eight-byte
  counter and the sealed envelope; the counter is also the nonce.
*/
module SessionCipher {
  import opened Wrappers
  import opened Bytes
  import opened Streams
  import opened Messages

  type Key = bytes

  /** Authenticated encryption and the envelope encoding, as far as the channel relies on them. */
  datatype Primitives = Primitives(
    encrypt: (Key, bytes, bytes) -> bytes,          // key, nonce, plaintext
    decrypt: (Key, bytes, bytes) -> Option<bytes>,  // key, nonce, ciphertext
    serialize: Envelope -> bytes,
    parse: bytes -> Option<Envelope>)

  const TAG_SIZE: nat := 16

  ghost predicate Lawful(p: Primitives) {
    && (forall key, nonce, text :: p.decrypt(key, nonce, p.encrypt(key, nonce, text)) == Some(text))
    && (forall key, nonce, text :: |p.encrypt(key, nonce, text)| == |text| + TAG_SIZE)
    && (forall e :: p.parse(p.serialize(e)) == Some(e))
  }

  const COUNTERS: nat := 0x1_0000_0000_0000_0000

  function Nonce(counter: nat): bytes {
    [0, 0, 0, 0] + BigEndian(counter, 8)
  }

  /** Below 2^64 no two counters share a nonce. */
  lemma NoncesAreDistinct(m: nat, n: nat)
    requires m < COUNTERS && n < COUNTERS && m != n
    ensures Nonce(m) != Nonce(n)
  {
    if Nonce(m) == Nonce(n) {
      Widths();
      assert BigEndian(m, 8) == Nonce(m)[4..] == Nonce(n)[4..] == BigEndian(n, 8);
      EncodingIsInjective(m, n, 8);
    }
  }

  // ---------------------------------------------------------------------------
  // Frames
  // ---------------------------------------------------------------------------

  function Sealed(p: Primitives, key: Key, counter: nat, e: Envelope): bytes {
    BigEndian(counter, 8) + p.encrypt(key, Nonce(counter), p.serialize(e))
  }

  function Frame(p: Primitives, key: Key, counter: nat, e: Envelope): bytes {
    var s := Sealed(p, key, counter, e);
    BigEndian(|s|, 4) + s
  }

  /** The sealed envelope is within the limit of the reader. */
  predicate Fits(p: Primitives, e: Envelope, maxFrame: nat) {
    8 + |p.serialize(e)| + TAG_SIZE <= maxFrame
  }

  predicate AllFit(p: Primitives, sent: seq<Envelope>, maxFrame: nat) {
    forall i :: 0 <= i < |sent| ==> Fits(p, sent[i], maxFrame)
  }

  /** Every entry of `order` is the position of one of `n` envelopes. */
  predicate Picks(order: seq<nat>, n: nat) {
    forall i :: 0 <= i < |order| ==> order[i] < n
  }

  datatype ReadError = EndOfStream | InvalidSize | Replayed | NotAuthentic | Unparsable

  datatype Reading = Reading(result: Result<(nat, Envelope), ReadError>, rest: bytes, seen: set<nat>)

  /** One read, on the bytes still to come and the counters already seen. */
  function ReadOne(p: Primitives, key: Key, maxFrame: nat, rest: bytes, seen: set<nat>): Reading {
    if |rest| < 4 then Reading(Err(EndOfStream), [], seen)
    else
      var size := FromBigEndian(rest[..4]);
      var body := rest[4..];
      if size <= 8 || size > maxFrame then Reading(Err(InvalidSize), body, seen)
      else if |body| < size then Reading(Err(EndOfStream), [], seen)
      else
        var counter := FromBigEndian(body[..8]);
        if counter in seen then Reading(Err(Replayed), body[size..], seen)
        else
          var plain := p.decrypt(key, Nonce(counter), body[8..size]);
          Reading(
            if plain.None? then Err(NotAuthentic)
            else if p.parse(plain.value).None? then Err(Unparsable)
            else Ok((counter, p.parse(plain.value).value)),
            body[size..], seen + {counter})
  }

  /** Everything a reader gets out of a stream, and the error that ends it. */
  function ReadAll(p: Primitives, key: Key, maxFrame: nat, rest: bytes, seen: set<nat>): (seq<(nat, Envelope)>, ReadError)
    decreases |rest|
  {
    var r := ReadOne(p, key, maxFrame, rest, seen);
    match r.result
    case Err(error) => ([], error)
    case Ok(item) =>
      var (items, error) := ReadAll(p, key, maxFrame, r.rest, r.seen);
      ([item] + items, error)
  }

  /** Frames sealed with the counters `order`, in that order: the sender's own, or any rearrangement. */
  function Wire(p: Primitives, key: Key, sent: seq<Envelope>, order: seq<nat>): bytes
    requires Picks(order, |sent|)
  {
    if order == [] then []
    else Frame(p, key, order[0], sent[order[0]]) + Wire(p, key, sent, order[1..])
  }

  /** Reading goes on after `earlier` items. */
  function After(earlier: seq<(nat, Envelope)>, more: (seq<(nat, Envelope)>, ReadError)): (seq<(nat, Envelope)>, ReadError) {
    (earlier + more.0, more.1)
  }

  lemma AfterOneMore(earlier: seq<(nat, Envelope)>, item: (nat, Envelope), more: (seq<(nat, Envelope)>, ReadError))
    ensures After(earlier, ([item] + more.0, more.1)) == After(earlier + [item], more)
  {
    assert earlier + ([item] + more.0) == earlier + [item] + more.0;
  }

  lemma AfterNothing(items: seq<(nat, Envelope)>, error: ReadError)
    ensures After([], (items, error)) == After(items, ([], error)) == (items, error)
  {
    assert [] + items == items + [] == items;
  }

  lemma ReadFrame(p: Primitives, key: Key, maxFrame: nat, counter: nat, e: Envelope, more: bytes, seen: set<nat>)
    requires Lawful(p) && counter < COUNTERS && maxFrame < Pow256(4) && Fits(p, e, Pow256(4) - 1)
    ensures var r := ReadOne(p, key, maxFrame, Frame(p, key, counter, e) + more, seen);
      if !Fits(p, e, maxFrame) then r.result == Err(InvalidSize)
      else if counter in seen then r == Reading(Err(Replayed), more, seen)
      else r == Reading(Ok((counter, e)), more, seen + {counter})
  {
    var s := Sealed(p, key, counter, e);
    var size := |s|;
    var rest := Frame(p, key, counter, e) + more;
    assert rest[..4] == BigEndian(size, 4);
    assert rest[4..] == s + more;
    DecodeEncode(size, 4);
    Widths();
    DecodeEncode(counter, 8);
    assert (s + more)[..8] == BigEndian(counter, 8);
    assert (s + more)[8..size] == p.encrypt(key, Nonce(counter), p.serialize(e));
    assert (s + more)[size..] == more;
  }

  /** A frame that claims `counter` and carries `sealed`, whoever made it. */
  function AnyFrame(counter: nat, sealed: bytes): bytes {
    BigEndian(8 + |sealed|, 4) + (BigEndian(counter, 8) + sealed)
  }

  /**
    What becomes of any frame at all: refused for its size or for its counter, and otherwise
    its counter is used up, and it is returned exactly if it decrypts under the nonce of its
    counter to the encoding of an envelope.
   */
  lemma ReadAnyFrame(p: Primitives, key: Key, maxFrame: nat, counter: nat, sealed: bytes, more: bytes, seen: set<nat>)
    requires counter < COUNTERS && 8 + |sealed| < 0x1_0000_0000
    ensures var r := ReadOne(p, key, maxFrame, AnyFrame(counter, sealed) + more, seen);
      var plain := p.decrypt(key, [0, 0, 0, 0] + BigEndian(counter, 8), sealed);
      if sealed == [] || 8 + |sealed| > maxFrame then r == Reading(Err(InvalidSize), BigEndian(counter, 8) + sealed + more, seen)
      else if counter in seen then r == Reading(Err(Replayed), more, seen)
      else
        && r.rest == more && r.seen == seen + {counter}
        && r.result == if plain.None? then Err(NotAuthentic)
                       else if p.parse(plain.value).None? then Err(Unparsable)
                       else Ok((counter, p.parse(plain.value).value))
  {
    var size, body := 8 + |sealed|, BigEndian(counter, 8) + sealed;
    Widths();
    TakeDrop(BigEndian(size, 4), body + more);
    assert AnyFrame(counter, sealed) + more == BigEndian(size, 4) + (body + more);
    DecodeEncode(size, 4);
    DecodeEncode(counter, 8);
    TakeDrop(body, more);
    assert (body + more)[..8] == BigEndian(counter, 8);
    assert (body + more)[8..size] == sealed;
  }

  /** Fewer bytes than a frame announces are the end of the stream. */
  lemma ReadShort(p: Primitives, key: Key, maxFrame: nat, size: nat, part: bytes, seen: set<nat>)
    requires 8 < size <= maxFrame && size < 0x1_0000_0000 && |part| < size
    ensures ReadOne(p, key, maxFrame, BigEndian(size, 4) + part, seen) == Reading(Err(EndOfStream), [], seen)
  {
    Widths();
    TakeDrop(BigEndian(size, 4), part);
    DecodeEncode(size, 4);
  }

  /** Some ciphertext decrypts, under the nonce of the item's counter, to its envelope. */
  ghost predicate Authentic(p: Primitives, key: Key, item: (nat, Envelope)) {
    exists sealed, text ::
      p.decrypt(key, [0, 0, 0, 0] + BigEndian(item.0, 8), sealed) == Some(text) && p.parse(text) == Some(item.1)
  }

  lemma ReadOneIsAuthentic(p: Primitives, key: Key, maxFrame: nat, rest: bytes, seen: set<nat>)
    ensures var r := ReadOne(p, key, maxFrame, rest, seen); r.result.Ok? ==> Authentic(p, key, r.result.value)
    ensures var r := ReadOne(p, key, maxFrame, rest, seen); r.result.Ok? ==> r.result.value.0 < COUNTERS
  {
    var r := ReadOne(p, key, maxFrame, rest, seen);
    if r.result.Ok? {
      var size, body := FromBigEndian(rest[..4]), rest[4..];
      var counter := FromBigEndian(body[..8]);
      var plain := p.decrypt(key, Nonce(counter), body[8..size]);
      assert plain.Some? && p.parse(plain.value) == Some(r.result.value.1);
      EncodeDecode(body[..8]);
      Widths();
    }
  }

  /** Whatever bytes arrive, everything returned has been decrypted under its own counter. */
  lemma {:induction false} ItemsAreAuthentic(p: Primitives, key: Key, maxFrame: nat, rest: bytes, seen: set<nat>)
    ensures forall item <- ReadAll(p, key, maxFrame, rest, seen).0 :: Authentic(p, key, item) && item.0 < COUNTERS
    decreases |rest|
  {
    var r := ReadOne(p, key, maxFrame, rest, seen);
    ReadOneIsAuthentic(p, key, maxFrame, rest, seen);
    if r.result.Ok? { ItemsAreAuthentic(p, key, maxFrame, r.rest, r.seen); }
  }

  /**
    Under this key nothing decrypts but what the peer sealed: its envelopes, each under the
    nonce of its position.  (That nobody else can seal is not something `Lawful` can say.)
   */
  ghost predicate OnlyPeerSeals(p: Primitives, key: Key, sent: seq<Envelope>) {
    forall nonce, sealed, text :: p.decrypt(key, nonce, sealed) == Some(text) ==>
      exists k :: 0 <= k < |sent| && nonce == Nonce(k) && text == p.serialize(sent[k])
  }

  /** Then, whatever bytes arrive, only the peer's envelopes are returned, each with the counter it was sent with. */
  lemma OnlySentIsReturned(p: Primitives, key: Key, maxFrame: nat, sent: seq<Envelope>, rest: bytes, seen: set<nat>)
    requires OnlyPeerSeals(p, key, sent) && |sent| <= COUNTERS && forall e :: p.parse(p.serialize(e)) == Some(e)
    ensures forall item <- ReadAll(p, key, maxFrame, rest, seen).0 :: item.0 < |sent| && item.1 == sent[item.0]
  {
    ItemsAreAuthentic(p, key, maxFrame, rest, seen);
    forall item | item in ReadAll(p, key, maxFrame, rest, seen).0 ensures item.0 < |sent| && item.1 == sent[item.0] {
      var sealed, text :|
        p.decrypt(key, [0, 0, 0, 0] + BigEndian(item.0, 8), sealed) == Some(text) && p.parse(text) == Some(item.1);
      var k :| 0 <= k < |sent| && Nonce(item.0) == Nonce(k) && text == p.serialize(sent[k]);
      if item.0 != k { NoncesAreDistinct(item.0, k); }
    }
  }

  /** A nonce is four zero bytes and the eight bytes of the counter. */
  lemma NonceBytes(counter: nat)
    requires counter < COUNTERS
    ensures |Nonce(counter)| == 12 && Nonce(counter)[..4] == [0, 0, 0, 0] && FromBigEndian(Nonce(counter)[4..]) == counter
    ensures forall i :: 4 <= i < 12 ==> Nonce(counter)[i] == DropBytes(counter, 11 - i) % 0x100
  {
    Widths();
    DecodeEncode(counter, 8);
    assert Nonce(counter)[4..] == BigEndian(counter, 8);
    forall i | 4 <= i < 12 ensures Nonce(counter)[i] == DropBytes(counter, 11 - i) % 0x100 { ByteAt(counter, 8, i - 4); }
  }

  /** The position of the first counter that repeats an earlier one, or the length. */
  function FirstRepeat(order: seq<nat>, seen: set<nat>): (k: nat)
    ensures k <= |order|
  {
    if order == [] || order[0] in seen then 0 else 1 + FirstRepeat(order[1..], seen + {order[0]})
  }

  /**
    However genuine frames are dropped, reordered or repeated on the way, the reader
    returns each as it was sent, in the order of arrival, up to the first repetition; there
    it stops with the replay error.
   */
  lemma {:induction false} ReadsGenuineFrames(p: Primitives, key: Key, maxFrame: nat,
                                               sent: seq<Envelope>, order: seq<nat>, seen: set<nat>)
    requires Lawful(p) && maxFrame < Pow256(4) && |sent| <= COUNTERS
    requires Picks(order, |sent|)
    requires AllFit(p, sent, maxFrame)
    ensures var (items, error) := ReadAll(p, key, maxFrame, Wire(p, key, sent, order), seen);
      && |items| == FirstRepeat(order, seen)
      && (forall i :: 0 <= i < |items| ==> items[i] == (order[i], sent[order[i]]))
      && error == if |items| == |order| then EndOfStream else Replayed
    decreases |order|
  {
    if order != [] {
      var c := order[0];
      assert Fits(p, sent[c], maxFrame);
      ReadFrame(p, key, maxFrame, c, sent[c], Wire(p, key, sent, order[1..]), seen);
      if c !in seen {
        ReadsGenuineFrames(p, key, maxFrame, sent, order[1..], seen + {c});
        var (items, _) := ReadAll(p, key, maxFrame, Wire(p, key, sent, order), seen);
        var (more, _) := ReadAll(p, key, maxFrame, Wire(p, key, sent, order[1..]), seen + {c});
        assert items == [(c, sent[c])] + more;
      }
    }
  }

  /** The counters of the sender: the k-th frame uses counter k. */
  function InOrder(from: nat, to: nat): (order: seq<nat>)
    requires from <= to
    ensures |order| == to - from && forall i :: 0 <= i < |order| ==> order[i] == from + i
  {
    seq(to - from, i requires 0 <= i < to - from => from + i)
  }

  lemma {:induction false} InOrderHasNoRepeat(from: nat, to: nat, seen: set<nat>)
    requires from <= to && forall n :: n in seen ==> n < from
    ensures FirstRepeat(InOrder(from, to), seen) == to - from
    decreases if from < to then to - from else 0
  {
    if from < to {
      assert InOrder(from, to)[1..] == InOrder(from + 1, to);
      InOrderHasNoRepeat(from + 1, to, seen + {from});
    }
  }

  /** The items are the envelopes in order, the k-th with counter k. */
  ghost predicate Returned(items: seq<(nat, Envelope)>, sent: seq<Envelope>) {
    |items| == |sent| && forall i :: 0 <= i < |sent| ==> items[i] == (i, sent[i])
  }

  /** Exactly when the reader returns everything that was sent: when every frame fits its limit. */
  lemma RoundTripExactly(p: Primitives, key: Key, maxFrame: nat, sent: seq<Envelope>)
    requires Lawful(p) && maxFrame < Pow256(4) && |sent| <= COUNTERS
    requires AllFit(p, sent, Pow256(4) - 1)
    ensures var all := ReadAll(p, key, maxFrame, Transcript(p, key, sent), {});
      && (Returned(all.0, sent) <==> AllFit(p, sent, maxFrame))
      && (AllFit(p, sent, maxFrame) ==> all.1 == EndOfStream)
  {
    if AllFit(p, sent, maxFrame) {
      ReadsGenuineFrames(p, key, maxFrame, sent, InOrder(0, |sent|), {});
      InOrderHasNoRepeat(0, |sent|, {});
    } else {
      var i :| 0 <= i < |sent| && !Fits(p, sent[i], maxFrame);
      OversizedStops(p, key, maxFrame, sent, 0, i, {});
    }
  }

  /** How many frames from position `from` on a reader returns. */
  function ReturnedFrom(p: Primitives, key: Key, maxFrame: nat, sent: seq<Envelope>, from: nat, seen: set<nat>): nat
    requires from <= |sent|
  {
    |ReadAll(p, key, maxFrame, Wire(p, key, sent, InOrder(from, |sent|)), seen).0|
  }

  /** An oversized frame ends the reading before everything has been returned. */
  lemma {:induction false} OversizedStops(p: Primitives, key: Key, maxFrame: nat, sent: seq<Envelope>, from: nat, misfit: nat, seen: set<nat>)
    requires Lawful(p) && maxFrame < Pow256(4) && |sent| <= COUNTERS
    requires AllFit(p, sent, Pow256(4) - 1)
    requires from <= misfit < |sent| && !Fits(p, sent[misfit], maxFrame)
    ensures ReturnedFrom(p, key, maxFrame, sent, from, seen) < |sent| - from
    decreases |sent| - from
  {
    ReadNext(p, key, maxFrame, sent, from, seen);
    if ReadsOn(p, maxFrame, sent, from, seen) {
      OversizedStops(p, key, maxFrame, sent, from + 1, misfit, seen + {from});
    }
  }

  predicate ReadsOn(p: Primitives, maxFrame: nat, sent: seq<Envelope>, from: nat, seen: set<nat>)
    requires from < |sent|
  {
    Fits(p, sent[from], maxFrame) && from !in seen
  }

  /** Reading from a frame on goes on after it, or returns nothing. */
  lemma ReadNext(p: Primitives, key: Key, maxFrame: nat, sent: seq<Envelope>, from: nat, seen: set<nat>)
    requires Lawful(p) && maxFrame < Pow256(4) && |sent| <= COUNTERS
    requires from < |sent| && AllFit(p, sent, Pow256(4) - 1)
    ensures ReturnedFrom(p, key, maxFrame, sent, from, seen)
         == if ReadsOn(p, maxFrame, sent, from, seen)
            then 1 + ReturnedFrom(p, key, maxFrame, sent, from + 1, seen + {from}) else 0
  {
    var order := InOrder(from, |sent|);
    assert order[1..] == InOrder(from + 1, |sent|);
    ReadFrame(p, key, maxFrame, from, sent[from], Wire(p, key, sent, order[1..]), seen);
  }

  /** The counters are new, and no two are the same. */
  ghost predicate FreshCounters(items: seq<(nat, Envelope)>, seen: set<nat>) {
    && (forall i :: 0 <= i < |items| ==> items[i].0 !in seen)
    && (forall i, j :: 0 <= i < j < |items| ==> items[i].0 != items[j].0)
  }

  /** Whatever bytes arrive, no counter is returned twice. */
  lemma {:induction false} NoCounterTwice(p: Primitives, key: Key, maxFrame: nat, rest: bytes, seen: set<nat>)
    ensures FreshCounters(ReadAll(p, key, maxFrame, rest, seen).0, seen)
    decreases |rest|
  {
    var r := ReadOne(p, key, maxFrame, rest, seen);
    if r.result.Ok? {
      NoCounterTwice(p, key, maxFrame, r.rest, r.seen);
      var more := ReadAll(p, key, maxFrame, r.rest, r.seen).0;
      assert FreshCounters(more, r.seen);
      var c := r.result.value.0;
      assert c !in seen && r.seen == seen + {c};
      var items := [r.result.value] + more;
      assert ReadAll(p, key, maxFrame, rest, seen).0 == items;
      forall i | 0 <= i < |items| ensures items[i].0 !in seen {
        if i > 0 { assert items[i] == more[i - 1]; }
      }
      forall i, j | 0 <= i < j < |items| ensures items[i].0 != items[j].0 {
        assert items[j] == more[j - 1];
        if i > 0 { assert items[i] == more[i - 1]; }
      }
    }
  }

  // ---------------------------------------------------------------------------
  // The channel object
  // ---------------------------------------------------------------------------

  class ReplayGuard {
    var seen: set<nat>

    constructor ()
      ensures seen == {}
    {
      seen := {};
    }

    method CheckAndMark(counter: nat) returns (fresh_: bool)
      modifies this
      ensures fresh_ == (counter !in old(seen))
      ensures seen == old(seen) + {counter}
    {
      if counter in seen {
        assert seen == seen + {counter};
        return false;
      }
      seen := seen + {counter};
      return true;
    }
  }

  datatype WriteError = CounterOverflow | FrameTooLong

  /** The counter of the next frame, or why it is not written. */
  function WriteOutcome(p: Primitives, key: Key, counter: nat, e: Envelope): Result<nat, WriteError> {
    if counter >= COUNTERS then Err(CounterOverflow)
    else if |Sealed(p, key, counter, e)| >= Pow256(4) then Err(FrameTooLong)
    else Ok(counter)
  }

  /** The bytes of the frames from position `from` on, the k-th with counter k. */
  function WireFrom(p: Primitives, key: Key, sent: seq<Envelope>, from: nat): bytes
    requires from <= |sent|
  {
    Wire(p, key, sent, InOrder(from, |sent|))
  }

  lemma WireFirst(p: Primitives, key: Key, sent: seq<Envelope>, from: nat)
    requires from <= |sent|
    ensures WireFrom(p, key, sent, from)
         == if from == |sent| then [] else Frame(p, key, from, sent[from]) + WireFrom(p, key, sent, from + 1)
  {
    if from < |sent| { assert InOrder(from, |sent|)[1..] == InOrder(from + 1, |sent|); }
  }

  lemma Associates(a: bytes, b: bytes, c: bytes)
    ensures a + (b + c) == (a + b) + c && a + [] == a && [] + a == a
  {
  }

  lemma WireEnds(p: Primitives, key: Key, sent: seq<Envelope>, e: Envelope)
    ensures WireFrom(p, key, sent + [e], |sent|) == Frame(p, key, |sent|, e) && WireFrom(p, key, sent, |sent|) == []
  {
    WireFirst(p, key, sent + [e], |sent|);
    WireFirst(p, key, sent + [e], |sent| + 1);
    WireFirst(p, key, sent, |sent|);
    Associates(Frame(p, key, |sent|, e), [], []);
  }

  lemma WireGoesOn(p: Primitives, key: Key, sent: seq<Envelope>, from: nat, e: Envelope, last: bytes)
    requires from < |sent|
    requires WireFrom(p, key, sent + [e], from + 1) == WireFrom(p, key, sent, from + 1) + last
    ensures WireFrom(p, key, sent + [e], from) == WireFrom(p, key, sent, from) + last
  {
    WireFirst(p, key, sent + [e], from);
    WireFirst(p, key, sent, from);
    Associates(Frame(p, key, from, sent[from]), WireFrom(p, key, sent, from + 1), last);
  }

  lemma {:induction false} WireGrows(p: Primitives, key: Key, sent: seq<Envelope>, from: nat, e: Envelope)
    requires from <= |sent|
    ensures WireFrom(p, key, sent + [e], from) == WireFrom(p, key, sent, from) + Frame(p, key, |sent|, e)
    decreases |sent| - from
  {
    if from < |sent| {
      WireGrows(p, key, sent, from + 1, e);
      WireGoesOn(p, key, sent, from, e, Frame(p, key, |sent|, e));
    } else {
      WireEnds(p, key, sent, e);
      Associates([], Frame(p, key, |sent|, e), []);
    }
  }

  /** The bytes of the frames of `sent`, the k-th with counter k. */
  function Transcript(p: Primitives, key: Key, sent: seq<Envelope>): bytes {
    WireFrom(p, key, sent, 0)
  }

  lemma TranscriptGrows(p: Primitives, key: Key, sent: seq<Envelope>, e: Envelope)
    ensures Transcript(p, key, sent + [e]) == Transcript(p, key, sent) + Frame(p, key, |sent|, e)
  {
    WireGrows(p, key, sent, 0, e);
  }

  /** A frame is written unless the counter does not fit eight bytes or the frame's length four. */
  lemma WritesExactly(p: Primitives, key: Key, counter: nat, e: Envelope)
    requires Lawful(p)
    ensures WriteOutcome(p, key, counter, e)
         == if counter >= 0x1_0000_0000_0000_0000 then Err(CounterOverflow)
            else if 8 + |p.serialize(e)| + 16 >= 0x1_0000_0000 then Err(FrameTooLong)
            else Ok(counter)
  {
    Widths();
  }

  /** One end of a session; each write runs under the channel's lock, so writes do not overlap. */
  class EncryptedEnvelopeChannel {
    const p: Primitives
    const input: InStream
    const output: OutStream
    const sendKey: Key
    const receiveKey: Key
    const maxFrame: nat
    const guard: ReplayGuard
    var sendCounter: nat
    ghost var sent: seq<Envelope>
    ghost const before: bytes              // written to the stream before the channel existed

    ghost predicate Valid()
      reads this, output
    {
      && sendCounter == |sent| <= COUNTERS
      && output.written == before + Transcript(p, sendKey, sent)
    }

    constructor (p: Primitives, input: InStream, output: OutStream, sendKey: Key, receiveKey: Key, maxFrame: nat)
      ensures Valid() && fresh(guard) && guard.seen == {}
      ensures this.p == p && this.input == input && this.output == output
      ensures this.sendKey == sendKey && this.receiveKey == receiveKey && this.maxFrame == maxFrame
      ensures sent == []
    {
      this.p, this.input, this.output := p, input, output;
      this.sendKey, this.receiveKey, this.maxFrame := sendKey, receiveKey, maxFrame;
      this.guard := new ReplayGuard();
      this.sendCounter, this.sent, this.before := 0, [], output.written;
    }

    /** Writes the next frame, with the number of earlier frames as its counter. */
    method WriteEnvelope(e: Envelope) returns (r: Result<nat, WriteError>)
      requires Valid()
      modifies this, output
      ensures Valid()
      ensures r == WriteOutcome(p, sendKey, |old(sent)|, e)
      ensures sent == if r.Ok? then old(sent) + [e] else old(sent)
      ensures output.written
           == if r.Ok? then old(output.written) + Frame(p, sendKey, |old(sent)|, e) else old(output.written)
    {
      Widths();
      var plaintext := p.serialize(e);
      if sendCounter >= COUNTERS { return Err(CounterOverflow); }
      var ciphertext := p.encrypt(sendKey, Nonce(sendCounter), plaintext);
      var frame := BigEndian(sendCounter, 8) + ciphertext;
      if |frame| >= 0x1_0000_0000 { return Err(FrameTooLong); }
      r := Ok(sendCounter);
      TranscriptGrows(p, sendKey, sent, e);
      Associates(output.written, BigEndian(|frame|, 4), frame);
      Associates(before, Transcript(p, sendKey, sent), Frame(p, sendKey, |sent|, e));
      output.Write(BigEndian(|frame|, 4));
      output.Write(frame);
      sent := sent + [e];
      sendCounter := sendCounter + 1;
    }

    /** Reads one frame, however the stream splits it. */
    method ReadEnvelope() returns (r: Result<(nat, Envelope), ReadError>)
      modifies input, guard
      ensures ReadOne(p, receiveKey, maxFrame, old(input.rest), old(guard.seen))
           == Reading(r, input.rest, guard.seen)
    {
      var header := ReadExact(input, 4);
      if header.None? { return Err(EndOfStream); }
      var size := FromBigEndian(header.value);
      if size <= 8 || size > maxFrame { return Err(InvalidSize); }
      var frame := ReadExact(input, size);
      if frame.None? { return Err(EndOfStream); }
      assert frame.value[..8] == old(input.rest)[4..][..8];
      assert frame.value[8..] == old(input.rest)[4..][8..size];
      var counter := FromBigEndian(frame.value[..8]);
      var isFresh := guard.CheckAndMark(counter);
      if !isFresh {
        assert guard.seen == old(guard.seen);
        return Err(Replayed);
      }
      var plaintext := p.decrypt(receiveKey, Nonce(counter), frame.value[8..]);
      if plaintext.None? { return Err(NotAuthentic); }
      var envelope := p.parse(plaintext.value);
      if envelope.None? { return Err(Unparsable); }
      return Ok((counter, envelope.value));
    }

    /** The read loop: everything up to the first error, however the stream splits the frames. */
    method ReadToTheEnd() returns (items: seq<(nat, Envelope)>, error: ReadError)
      modifies input, guard
      ensures (items, error) == ReadAll(p, receiveKey, maxFrame, old(input.rest), old(guard.seen))
    {
      items := [];
      ghost var all := ReadAll(p, receiveKey, maxFrame, input.rest, guard.seen);
      AfterNothing(all.0, all.1);
      while true
        invariant all == After(items, ReadAll(p, receiveKey, maxFrame, input.rest, guard.seen))
        decreases |input.rest|
      {
        var r := ReadEnvelope();
        ghost var more := ReadAll(p, receiveKey, maxFrame, input.rest, guard.seen);
        if r.Err? {
          AfterNothing(items, r.error);
          return items, r.error;
        }
        AfterOneMore(items, r.value, more);
        items := items + [r.value];
      }
    }
  }
}
