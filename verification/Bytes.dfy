/** Bytes and big-endian integers, as both programs put them on the wire. */
module Bytes {

  type byte = b: int | 0 <= b < 0x100

  type bytes = seq<byte>

  function Pow256(width: nat): nat
    ensures Pow256(width) > 0
  {
    if width == 0 then 1 else 0x100 * Pow256(width - 1)
  }

  /** The big-endian encoding of `n` in `width` bytes; higher digits are dropped. */
  function BigEndian(n: nat, width: nat): (b: bytes)
    ensures |b| == width
  {
    if width == 0 then [] else BigEndian(n / 0x100, width - 1) + [n % 0x100]
  }

  function FromBigEndian(b: bytes): (n: nat)
  {
    if b == [] then 0 else FromBigEndian(b[..|b| - 1]) * 0x100 + b[|b| - 1]
  }

  lemma AppendByte(b: bytes, x: byte)
    ensures FromBigEndian(b + [x]) == FromBigEndian(b) * 0x100 + x
  {
    assert (b + [x])[..|b|] == b;
  }

  lemma {:induction false} DecodeEncode(n: nat, width: nat)
    requires n < Pow256(width)
    ensures FromBigEndian(BigEndian(n, width)) == n
  {
    if width > 0 {
      DecodeEncode(n / 0x100, width - 1);
      AppendByte(BigEndian(n / 0x100, width - 1), n % 0x100);
    }
  }

  lemma {:induction false} EncodeDecode(b: bytes)
    ensures FromBigEndian(b) < Pow256(|b|)
    ensures BigEndian(FromBigEndian(b), |b|) == b
  {
    if b != [] {
      EncodeDecode(b[..|b| - 1]);
      assert b == b[..|b| - 1] + [b[|b| - 1]];
    }
  }

  /** Within its range an encoding determines the number. */
  lemma EncodingIsInjective(m: nat, n: nat, width: nat)
    requires m < Pow256(width) && n < Pow256(width) && BigEndian(m, width) == BigEndian(n, width)
    ensures m == n
  {
    DecodeEncode(m, width);
    DecodeEncode(n, width);
  }

  /** The number without its last `k` bytes. */
  function DropBytes(n: nat, k: nat): nat {
    if k == 0 then n else DropBytes(n / 0x100, k - 1)
  }

  /** The most significant byte comes first. */
  lemma {:induction false} ByteAt(n: nat, width: nat, i: nat)
    requires i < width
    ensures BigEndian(n, width)[i] == DropBytes(n, width - 1 - i) % 0x100
    decreases width
  {
    if i < width - 1 { ByteAt(n / 0x100, width - 1, i); }
  }

  lemma Widths()
    ensures Pow256(2) == 0x1_0000 && Pow256(4) == 0x1_0000_0000 && Pow256(8) == 0x1_0000_0000_0000_0000
  {
    assert Pow256(1) == 0x100;
    assert Pow256(2) == 0x100 * Pow256(1);
    assert Pow256(3) == 0x100 * Pow256(2);
    assert Pow256(4) == 0x100 * Pow256(3);
    assert Pow256(5) == 0x100 * Pow256(4);
    assert Pow256(6) == 0x100 * Pow256(5);
    assert Pow256(7) == 0x100 * Pow256(6);
    assert Pow256(8) == 0x100 * Pow256(7);
  }

  predicate IsAscii(s: string) {
    forall i :: 0 <= i < |s| ==> s[i] < 128 as char
  }

  function Ascii(s: string): (b: bytes)
    requires IsAscii(s)
    ensures |b| == |s|
  {
    seq(|s|, i requires 0 <= i < |s| => s[i] as int)
  }

  lemma TakeDrop<T>(a: seq<T>, b: seq<T>)
    ensures (a + b)[..|a|] == a && (a + b)[|a|..] == b
  {
  }
}
