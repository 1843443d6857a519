/**
  The bytes that session signatures sign, as the desktop and the phone write them.
 */
module SessionSignature {
  import opened Wrappers
  import opened Bytes
  import opened Streams

  type uint32 = n: int | 0 <= n < 0x1_0000_0000

  type int64 = n: int | -0x8000_0000_0000_0000 <= n < 0x8000_0000_0000_0000

  /** The text fields hold their UTF-8 bytes. */
  datatype Descriptor = Descriptor(
    fingerprint: bytes, deviceName: bytes, platform: bytes, identityKey: bytes,
    major: uint32, minor: uint32, patch: uint32)

  datatype Statement = Statement(purpose: bytes, descriptor: Descriptor, ephemeralKey: bytes, issuedAtMs: int64)

  const SESSION_INIT_LABEL: bytes := Ascii("linkable-session-init-v1")
  const SESSION_ACK_LABEL: bytes := Ascii("linkable-session-ack-v1")

  function TextFields(s: Statement): (fields: seq<bytes>)
    ensures |fields| == 6
  {
    var d := s.descriptor;
    [s.purpose, d.fingerprint, d.deviceName, d.platform, d.identityKey, s.ephemeralKey]
  }

  /** A length prefix holds at most this much. */
  predicate Fit(fields: seq<bytes>, limit: nat) {
    forall i :: 0 <= i < |fields| ==> |fields[i]| < limit
  }

  // ---------------------------------------------------------------------------
  // The layout
  // ---------------------------------------------------------------------------

  function Field(value: bytes): bytes {
    BigEndian(|value|, 4) + value
  }

  function Fields(values: seq<bytes>): bytes {
    if values == [] then [] else Field(values[0]) + Fields(values[1..])
  }

  /** The unsigned number with the same 64 bits. */
  function Unsigned(n: int64): (u: nat)
    ensures u < 0x1_0000_0000_0000_0000
  {
    if n >= 0 then n else n + 0x1_0000_0000_0000_0000
  }

  /** A 64-bit number in two's complement. */
  function Long(n: int64): bytes {
    BigEndian(Unsigned(n), 8)
  }

  function Longs(numbers: seq<int64>): (b: bytes)
    ensures |b| == 8 * |numbers|
  {
    if numbers == [] then [] else Longs(numbers[..|numbers| - 1]) + Long(numbers[|numbers| - 1])
  }

  function DesktopNumbers(s: Statement): (numbers: seq<int64>)
    ensures |numbers| == 4
  {
    var d := s.descriptor;
    [d.major, d.minor, d.patch, s.issuedAtMs]
  }

  /** The phone holds an unsigned 32-bit field in a signed int and widens it with its sign. */
  function SignExtend(n: uint32): (r: int64)
    ensures r == n <==> n < 0x8000_0000
  {
    if n < 0x8000_0000 then n else n - 0x1_0000_0000
  }

  function PhoneNumbers(s: Statement): (numbers: seq<int64>)
    ensures |numbers| == 4
  {
    var d := s.descriptor;
    [SignExtend(d.major), SignExtend(d.minor), SignExtend(d.patch), s.issuedAtMs]
  }

  function DesktopPayload(s: Statement): bytes {
    Fields(TextFields(s)) + Longs(DesktopNumbers(s))
  }

  function PhonePayload(s: Statement): bytes {
    Fields(TextFields(s)) + Longs(PhoneNumbers(s))
  }

  // ---------------------------------------------------------------------------
  // The builders
  // ---------------------------------------------------------------------------

  lemma Regroup(a: bytes, b: bytes, c: bytes)
    ensures a + (b + c) == (a + b) + c && a + [] == a && [] + a == a
  {
  }

  lemma {:induction false} FieldsPush(values: seq<bytes>, value: bytes)
    ensures Fields(values + [value]) == Fields(values) + Field(value)
  {
    var all := values + [value];
    if values == [] {
      assert all == [value] && all[1..] == [];
      Regroup(Field(value), [], []);
    } else {
      FieldsPush(values[1..], value);
      assert all[1..] == values[1..] + [value] && all[0] == values[0];
      Regroup(Field(values[0]), Fields(values[1..]), Field(value));
    }
  }

  lemma LongsPush(numbers: seq<int64>, n: int64)
    ensures Longs(numbers + [n]) == Longs(numbers) + Long(n)
  {
    assert (numbers + [n])[..|numbers|] == numbers;
  }

  /** Writes the field at position `k`, whose length the caller knows to fit the prefix. */
  method WriteLengthField(buffer: OutStream, value: bytes, ghost fields: seq<bytes>, ghost k: nat)
    requires k < |fields| && value == fields[k] && buffer.written == Fields(fields[..k])
    modifies buffer
    ensures buffer.written == Fields(fields[..k + 1])
  {
    FieldsPush(fields[..k], value);
    assert fields[..k + 1] == fields[..k] + [value];
    buffer.Write(BigEndian(|value|, 4));
    buffer.Write(value);
  }

  lemma FourLongs(a: int64, b: int64, c: int64, d: int64)
    ensures Longs([a, b, c, d]) == Long(a) + Long(b) + Long(c) + Long(d)
  {
    LongsPush([], a);
    LongsPush([a], b);
    LongsPush([a, b], c);
    LongsPush([a, b, c], d);
    assert [] + [a] == [a] && [a] + [b] == [a, b] && [a, b] + [c] == [a, b, c] && [a, b, c] + [d] == [a, b, c, d];
    assert [] + Long(a) == Long(a);
  }

  lemma Associates(start: bytes, a: bytes, b: bytes, c: bytes, d: bytes)
    ensures start + (a + b + c + d) == start + a + b + c + d
  {
  }

  method WriteNumbers(buffer: OutStream, a: int64, b: int64, c: int64, d: int64)
    modifies buffer
    ensures buffer.written == old(buffer.written) + Longs([a, b, c, d])
  {
    FourLongs(a, b, c, d);
    Associates(buffer.written, Long(a), Long(b), Long(c), Long(d));
    buffer.Write(Long(a));
    buffer.Write(Long(b));
    buffer.Write(Long(c));
    buffer.Write(Long(d));
  }

  /** Packing a length over 32 bits raises. */
  datatype Packing = Packed | TooLong {
    predicate IsFailure() { TooLong? }
    function PropagateFailure(): Packing
      requires IsFailure()
    {
      this
    }
  }

  method AppendField(buffer: OutStream, value: bytes, ghost fields: seq<bytes>, ghost k: nat) returns (r: Packing)
    requires k < |fields| && value == fields[k] && buffer.written == Fields(fields[..k])
    requires Fit(fields[..k], 0x1_0000_0000)
    modifies buffer
    ensures r == TooLong ==> |value| >= 0x1_0000_0000 && !Fit(fields, 0x1_0000_0000)
    ensures r == Packed ==> Fit(fields[..k + 1], 0x1_0000_0000) && buffer.written == Fields(fields[..k + 1])
  {
    if |value| >= 0x1_0000_0000 { return TooLong; }
    WriteLengthField(buffer, value, fields, k);
    return Packed;
  }

  /** The six length-prefixed fields, up to the first that cannot be packed. */
  method AppendFields(buffer: OutStream, s: Statement) returns (r: Packing)
    requires buffer.written == []
    modifies buffer
    ensures r == Packed <==> Fit(TextFields(s), 0x1_0000_0000)
    ensures r == Packed ==> buffer.written == Fields(TextFields(s))
  {
    var d := s.descriptor;
    ghost var fields := TextFields(s);
    assert fields[..0] == [] && fields[..6] == fields;
    :- AppendField(buffer, s.purpose, fields, 0);
    :- AppendField(buffer, d.fingerprint, fields, 1);
    :- AppendField(buffer, d.deviceName, fields, 2);
    :- AppendField(buffer, d.platform, fields, 3);
    :- AppendField(buffer, d.identityKey, fields, 4);
    :- AppendField(buffer, s.ephemeralKey, fields, 5);
    return Packed;
  }

  /** The desktop's builder. */
  method BuildSessionSignaturePayload(s: Statement) returns (payload: Option<bytes>)
    ensures payload == if Fit(TextFields(s), 0x1_0000_0000) then Some(DesktopPayload(s)) else None
  {
    var d := s.descriptor;
    var buffer := new OutStream();
    var r := AppendFields(buffer, s);
    if r.IsFailure() { return None; }
    WriteNumbers(buffer, d.major, d.minor, d.patch, s.issuedAtMs);
    return Some(buffer.written);
  }

  /** The phone's builder; its arrays are never longer than a signed int says. */
  method BuildOnPhone(s: Statement) returns (payload: bytes)
    requires Fit(TextFields(s), 0x8000_0000)
    ensures payload == PhonePayload(s)
  {
    var d := s.descriptor;
    ghost var fields := TextFields(s);
    var output := new OutStream();
    assert fields[..0] == [] && fields[..6] == fields;
    WriteLengthField(output, s.purpose, fields, 0);
    WriteLengthField(output, d.fingerprint, fields, 1);
    WriteLengthField(output, d.deviceName, fields, 2);
    WriteLengthField(output, d.platform, fields, 3);
    WriteLengthField(output, d.identityKey, fields, 4);
    WriteLengthField(output, s.ephemeralKey, fields, 5);
    WriteNumbers(output, SignExtend(d.major), SignExtend(d.minor), SignExtend(d.patch), s.issuedAtMs);
    return output.written;
  }

  // ---------------------------------------------------------------------------
  // The layout written out
  // ---------------------------------------------------------------------------

  lemma SixFields(a: bytes, b: bytes, c: bytes, d: bytes, e: bytes, f: bytes)
    ensures Fields([a, b, c, d, e, f]) == Field(a) + Field(b) + Field(c) + Field(d) + Field(e) + Field(f)
  {
    FieldsPush([], a);
    FieldsPush([a], b);
    FieldsPush([a, b], c);
    FieldsPush([a, b, c], d);
    FieldsPush([a, b, c, d], e);
    FieldsPush([a, b, c, d, e], f);
    assert [] + [a] == [a] && [a] + [b] == [a, b] && [a, b] + [c] == [a, b, c] && [a, b, c] + [d] == [a, b, c, d];
    assert [a, b, c, d] + [e] == [a, b, c, d, e] && [a, b, c, d, e] + [f] == [a, b, c, d, e, f];
    assert Fields([]) + Field(a) == Field(a);
  }

  /** The order in which both programs write: label, fingerprint, name, platform, identity key, ephemeral key, version, time. */
  lemma PayloadLayout(label_: bytes, fingerprint: bytes, name: bytes, platform: bytes, identity: bytes, ephemeral: bytes,
                      major: uint32, minor: uint32, patch: uint32, at: int64)
    ensures var s := Statement(label_, Descriptor(fingerprint, name, platform, identity, major, minor, patch), ephemeral, at);
      var text := Field(label_) + Field(fingerprint) + Field(name) + Field(platform) + Field(identity) + Field(ephemeral);
      && DesktopPayload(s) == text + (Long(major) + Long(minor) + Long(patch) + Long(at))
      && PhonePayload(s) == text + (Long(SignExtend(major)) + Long(SignExtend(minor)) + Long(SignExtend(patch)) + Long(at))
  {
    SixFields(label_, fingerprint, name, platform, identity, ephemeral);
    FourLongs(major, minor, patch, at);
    FourLongs(SignExtend(major), SignExtend(minor), SignExtend(patch), at);
  }

  /** Two's complement: the bytes of a negative number are those of that number and 2^64. */
  lemma LongValue(n: int64)
    ensures |Long(n)| == 8 && FromBigEndian(Long(n)) == if n >= 0 then n else n + 0x1_0000_0000_0000_0000
  {
    Widths();
    DecodeEncode(Unsigned(n), 8);
  }

  lemma {:induction false} BigEndianHalves(high: nat, low: nat, m: nat, n: nat)
    requires low < Pow256(n)
    ensures BigEndian(high * Pow256(n) + low, m + n) == BigEndian(high, m) + BigEndian(low, n)
    decreases n
  {
    if n == 0 {
      assert BigEndian(high, m) + [] == BigEndian(high, m);
    } else {
      var v := high * Pow256(n) + low;
      assert v == 0x100 * (high * Pow256(n - 1)) + low;
      assert v / 0x100 == high * Pow256(n - 1) + low / 0x100 && v % 0x100 == low % 0x100;
      BigEndianHalves(high, low / 0x100, m, n - 1);
    }
  }

  /** A number in two's complement: a version from 2^31 on is written by the phone with four bytes of ones before it. */
  lemma LongBytes(n: uint32)
    ensures Long(n) == BigEndian(0, 4) + BigEndian(n, 4)
    ensures Long(SignExtend(n)) == BigEndian(if n < 0x8000_0000 then 0 else 0xffff_ffff, 4) + BigEndian(n, 4)
  {
    Widths();
    BigEndianHalves(0, n, 4, 4);
    if n >= 0x8000_0000 {
      assert Unsigned(SignExtend(n)) == 0xffff_ffff * Pow256(4) + n;
      BigEndianHalves(0xffff_ffff, n, 4, 4);
    }
  }

  // ---------------------------------------------------------------------------
  // What a payload says
  // ---------------------------------------------------------------------------

  lemma FieldCancels(x: bytes, r: bytes, y: bytes, s: bytes)
    requires |x| < 0x1_0000_0000 && |y| < 0x1_0000_0000 && Field(x) + r == Field(y) + s
    ensures x == y && r == s
  {
    Widths();
    var a, b := BigEndian(|x|, 4), BigEndian(|y|, 4);
    assert Field(x) + r == a + (x + r) && Field(y) + s == b + (y + s);
    TakeDrop(a, x + r);
    TakeDrop(b, y + s);
    EncodingIsInjective(|x|, |y|, 4);
    TakeDrop(x, r);
    TakeDrop(y, s);
  }

  lemma {:induction false} FieldsCancel(a: seq<bytes>, r: bytes, b: seq<bytes>, s: bytes)
    requires |a| == |b| && Fit(a, 0x1_0000_0000) && Fit(b, 0x1_0000_0000)
    requires Fields(a) + r == Fields(b) + s
    ensures a == b && r == s
  {
    if a == [] {
      assert [] + r == r && [] + s == s;
    } else {
      assert Fields(a) + r == Field(a[0]) + (Fields(a[1..]) + r);
      assert Fields(b) + s == Field(b[0]) + (Fields(b[1..]) + s);
      FieldCancels(a[0], Fields(a[1..]) + r, b[0], Fields(b[1..]) + s);
      FieldsCancel(a[1..], r, b[1..], s);
      assert a == [a[0]] + a[1..] && b == [b[0]] + b[1..];
    }
  }

  lemma LongIsInjective(m: int64, n: int64)
    requires Long(m) == Long(n)
    ensures m == n
  {
    Widths();
    EncodingIsInjective(Unsigned(m), Unsigned(n), 8);
    SameUnsigned(m, n);
  }

  lemma SameUnsigned(m: int64, n: int64)
    requires Unsigned(m) == Unsigned(n)
    ensures m == n
  {
  }

  lemma {:induction false} LongsAreInjective(a: seq<int64>, b: seq<int64>)
    requires |a| == |b| && Longs(a) == Longs(b)
    ensures a == b
  {
    if a != [] {
      var k := |a| - 1;
      TakeDrop(Longs(a[..k]), Long(a[k]));
      TakeDrop(Longs(b[..k]), Long(b[k]));
      LongIsInjective(a[k], b[k]);
      LongsAreInjective(a[..k], b[..k]);
      assert a == a[..k] + [a[k]] && b == b[..k] + [b[k]];
    }
  }

  /** A payload on the desktop determines everything it was made from. */
  lemma PayloadIsInjective(s: Statement, t: Statement)
    requires Fit(TextFields(s), 0x1_0000_0000) && Fit(TextFields(t), 0x1_0000_0000)
    requires DesktopPayload(s) == DesktopPayload(t)
    ensures s == t
  {
    var a, b := TextFields(s), TextFields(t);
    var m, n := DesktopNumbers(s), DesktopNumbers(t);
    FieldsCancel(a, Longs(m), b, Longs(n));
    LongsAreInjective(m, n);
    assert a[0] == b[0] && a[1] == b[1] && a[2] == b[2] && a[3] == b[3] && a[4] == b[4] && a[5] == b[5];
    assert m[0] == n[0] && m[1] == n[1] && m[2] == n[2] && m[3] == n[3];
  }

  /** And so does one on the phone, where a sign-extended version is still distinct. */
  lemma PhonePayloadIsInjective(s: Statement, t: Statement)
    requires Fit(TextFields(s), 0x8000_0000) && Fit(TextFields(t), 0x8000_0000)
    requires PhonePayload(s) == PhonePayload(t)
    ensures s == t
  {
    var a, b := TextFields(s), TextFields(t);
    var m, n := PhoneNumbers(s), PhoneNumbers(t);
    FieldsCancel(a, Longs(m), b, Longs(n));
    LongsAreInjective(m, n);
    assert a[0] == b[0] && a[1] == b[1] && a[2] == b[2] && a[3] == b[3] && a[4] == b[4] && a[5] == b[5];
    assert m[0] == n[0] && m[1] == n[1] && m[2] == n[2] && m[3] == n[3];
  }

  predicate SmallVersions(d: Descriptor) {
    d.major < 0x8000_0000 && d.minor < 0x8000_0000 && d.patch < 0x8000_0000
  }

  /** Both programs sign the same bytes exactly when no version number has its top bit set. */
  lemma PayloadsAgreeExactly(s: Statement)
    requires Fit(TextFields(s), 0x8000_0000)
    ensures PhonePayload(s) == DesktopPayload(s) <==> SmallVersions(s.descriptor)
  {
    var m, n := PhoneNumbers(s), DesktopNumbers(s);
    if PhonePayload(s) == DesktopPayload(s) {
      FieldsCancel(TextFields(s), Longs(m), TextFields(s), Longs(n));
      LongsAreInjective(m, n);
      assert m[0] == n[0] && m[1] == n[1] && m[2] == n[2];
    }
  }

  /** A signature made for one side of the handshake never serves for the other, whichever program wrote it. */
  lemma InitIsNeverAck(init: Statement, ack: Statement)
    requires init.purpose == SESSION_INIT_LABEL && ack.purpose == SESSION_ACK_LABEL
    requires Fit(TextFields(init), 0x1_0000_0000) && Fit(TextFields(ack), 0x1_0000_0000)
    ensures {DesktopPayload(init), PhonePayload(init)} !! {DesktopPayload(ack), PhonePayload(ack)}
  {
    var a, b := TextFields(init), TextFields(ack);
    assert |a[0]| != |b[0]|;
    forall m, n | Fields(a) + Longs(m) == Fields(b) + Longs(n)
      ensures false
    {
      FieldsCancel(a, Longs(m), b, Longs(n));
    }
    assert Fields(a) + Longs(DesktopNumbers(init)) == DesktopPayload(init);
  }
}
