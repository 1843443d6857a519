/**
  Device ids: the phone's streaming base32 over a 32-bit buffer that is never masked, and the
  base 32 encoding of section 6 of RFC 4648 with its padding stripped, which the desktop uses.
 */
module Base32 {
  import opened Bytes

  // ---------------------------------------------------------------------------
  // Shifts of whole numbers
  // ---------------------------------------------------------------------------

  /** `v` times two to the `n`. */
  function Up(v: int, n: nat): (r: int)
    ensures v >= 0 ==> r >= v
  {
    if n == 0 then v else 2 * Up(v, n - 1)
  }

  /** `v` over two to the `n`, rounding down. */
  function Down(v: int, n: nat): (r: int)
    ensures v >= 0 ==> r >= 0
  {
    if n == 0 then v else Down(v, n - 1) / 2
  }

  lemma {:induction false} UpUp(v: int, m: nat, n: nat)
    ensures Up(Up(v, m), n) == Up(v, m + n)
  {
    if n > 0 { UpUp(v, m, n - 1); }
  }

  lemma {:induction false} DownDown(v: int, m: nat, n: nat)
    ensures Down(Down(v, m), n) == Down(v, m + n)
  {
    if n > 0 { DownDown(v, m, n - 1); }
  }

  lemma DownInside(v: int, n: nat)
    requires n > 0
    ensures Down(v, n) == Down(v / 2, n - 1)
  {
    assert Down(v, 1) == Down(v, 0) / 2;
    DownDown(v, 1, n - 1);
  }

  lemma {:induction false} UpAdd(a: int, b: int, n: nat)
    ensures Up(a + b, n) == Up(a, n) + Up(b, n)
  {
    if n > 0 { UpAdd(a, b, n - 1); }
  }

  lemma {:induction false} UpMonotone(a: int, b: int, n: nat)
    requires a < b
    ensures Up(a, n) < Up(b, n)
  {
    if n > 0 { UpMonotone(a, b, n - 1); }
  }

  /** A multiple of two to the `n` comes off before or after the shift. */
  lemma {:induction false} DownDrops(v: int, k: int, n: nat)
    ensures Down(v - Up(k, n), n) == Down(v, n) - k
    decreases n
  {
    if n > 0 {
      DownInside(v, n);
      DownInside(v - Up(k, n), n);
      DownDrops(v / 2, k, n - 1);
    }
  }

  lemma {:induction false} DownUp(v: int, m: nat, n: nat)
    ensures Down(Up(v, m), m + n) == Down(v, n)
  {
    DownDown(Up(v, m), m, n);
    DownDrops(Up(v, m), v, m);
    DownOfZero(m);
  }

  lemma {:induction false} DownOfZero(n: nat)
    ensures Down(0, n) == 0
  {
    if n > 0 { DownOfZero(n - 1); }
  }

  lemma OneUp(v: int, n: nat)
    ensures Up(v, n + 1) == 2 * Up(v, n) && Down(v, n + 1) == Down(v, n) / 2
  {
  }

  lemma FiveUp(v: int)
    ensures Up(v, 5) == 32 * v && Down(v, 5) == v / 32
  {
    OneUp(v, 0);
    OneUp(v, 1);
    OneUp(v, 2);
    OneUp(v, 3);
    OneUp(v, 4);
  }

  lemma EightUp(v: int)
    ensures Up(v, 8) == 0x100 * v && Down(v, 8) == v / 0x100
  {
    FiveUp(v);
    OneUp(v, 5);
    OneUp(v, 6);
    OneUp(v, 7);
  }

  lemma ThirtyTwoUp(v: int, n: nat)
    requires n == 32
    ensures Up(v, n) == 0x1_0000_0000 * v
  {
    var w := Up(v, 8);
    var x := Up(w, 8);
    var y := Up(x, 8);
    EightUp(v);
    EightUp(w);
    EightUp(x);
    EightUp(y);
    UpUp(y, 8, 0);
    UpUp(x, 8, n - 24);
    UpUp(w, 8, n - 16);
    UpUp(v, 8, n - 8);
  }

  // ---------------------------------------------------------------------------
  // Base 32 digits
  // ---------------------------------------------------------------------------

  /** The character of a base 32 digit: a letter, or a digit from two on. */
  function Letter(d: nat): (c: char)
    requires d < 32
    ensures c != '='
  {
    if d < 26 then 'A' + d as char else '2' + (d - 26) as char
  }

  function Alphabet(): (s: string)
    ensures |s| == 32 && forall d :: 0 <= d < 32 ==> s[d] == Letter(d)
  {
    "ABCDEFGHIJKLMNOPQRSTUVWXYZ234567"
  }

  /** The last `m` base 32 digits of `v`. */
  function Digits(v: nat, m: nat): (s: string)
    ensures |s| == m && '=' !in s
  {
    if m == 0 then "" else Digits(v / 32, m - 1) + [Letter(v % 32)]
  }

  lemma DigitsGrow(a: nat, b: nat, c: nat, d: nat, v: nat, w: nat, m: nat, j: nat)
    requires v == 32 * w + d && b == 32 * c + d && d < 32 && j > 0
    requires Digits(w, m + j - 1) == Digits(a, m) + Digits(c, j - 1)
    ensures Digits(v, m + j) == Digits(a, m) + Digits(b, j)
  {
  }

  lemma UpFiveMore(v: int, n: nat)
    requires n >= 5
    ensures Up(v, n) == 32 * Up(v, n - 5)
  {
    UpUp(v, n - 5, 5);
    FiveUp(Up(v, n - 5));
  }

  lemma {:induction false} DigitsOfSum(a: nat, b: nat, m: nat, j: nat, bits: nat)
    requires bits == 5 * j && b < Up(1, bits)
    ensures Digits(Up(a, bits) + b, m + j) == Digits(a, m) + Digits(b, j)
    decreases j
  {
    if j == 0 {
      assert Digits(a, m) + [] == Digits(a, m);
    } else {
      var c, d := b / 32, b % 32;
      UpFiveMore(a, bits);
      UpFiveMore(1, bits);
      DigitsOfSum(a, c, m, j - 1, bits - 5);
      DigitsGrow(a, b, c, d, Up(a, bits) + b, Up(a, bits - 5) + c, m, j);
    }
  }

  /** The digits determine the number when it has no more of them. */
  lemma {:induction false} DigitsAreInjective(v: nat, w: nat, m: nat)
    requires v < Up(1, 5 * m) && w < Up(1, 5 * m) && Digits(v, m) == Digits(w, m)
    ensures v == w
  {
    if m > 0 {
      UpUp(1, 5 * (m - 1), 5);
      FiveUp(Up(1, 5 * (m - 1)));
      var s, t := Digits(v, m), Digits(w, m);
      assert s[..m - 1] == Digits(v / 32, m - 1) && t[..m - 1] == Digits(w / 32, m - 1);
      assert s[m - 1] == Letter(v % 32) && t[m - 1] == Letter(w % 32);
      DigitsAreInjective(v / 32, w / 32, m - 1);
    }
  }

  // ---------------------------------------------------------------------------
  // Section 6 of RFC 4648
  // ---------------------------------------------------------------------------

  function Repeat(c: char, n: nat): (s: string)
    ensures |s| == n && forall i :: 0 <= i < n ==> s[i] == c
  {
    seq(n, _ => c)
  }

  /** How many of a quantum's eight characters carry data. */
  function DataCharacters(n: nat): nat
    requires 1 <= n <= 5
  {
    match n
    case 1 => 2
    case 2 => 4
    case 3 => 5
    case 4 => 7
    case _ => 8
  }

  /** One quantum of forty bits, filled with zero bits, its unused characters written as `=`. */
  function Quantum(q: bytes): string
    requires 1 <= |q| <= 5
  {
    var n := DataCharacters(|q|);
    Digits(Up(FromBigEndian(q), 8 * (5 - |q|)), 8)[..n] + Repeat('=', 8 - n)
  }

  function Rfc4648(input: bytes): string {
    if input == [] then ""
    else if |input| <= 5 then Quantum(input)
    else Quantum(input[..5]) + Rfc4648(input[5..])
  }

  /** Trailing `=` characters removed. */
  function RStrip(s: string): string {
    if s != [] && s[|s| - 1] == '=' then RStrip(s[..|s| - 1]) else s
  }

  lemma {:induction false} RStripPadding(s: string, n: nat)
    requires s == [] || s[|s| - 1] != '='
    ensures RStrip(s + Repeat('=', n)) == s
  {
    if n == 0 {
      assert s + [] == s;
    } else {
      var all := s + Repeat('=', n);
      assert all[|all| - 1] == '=';
      assert all[..|all| - 1] == s + Repeat('=', n - 1);
      RStripPadding(s, n - 1);
    }
  }

  lemma {:induction false} RStripAfter(s: string, t: string)
    requires RStrip(t) != []
    ensures RStrip(s + t) == s + RStrip(t)
    decreases |t|
  {
    assert (s + t)[|s + t| - 1] == t[|t| - 1];
    if t[|t| - 1] == '=' {
      assert (s + t)[..|s + t| - 1] == s + t[..|t| - 1];
      RStripAfter(s, t[..|t| - 1]);
    }
  }

  // ---------------------------------------------------------------------------
  // The whole input as one number
  // ---------------------------------------------------------------------------

  function Characters(n: nat): (m: nat)
    ensures 8 * n <= 5 * m < 8 * n + 5
  {
    (8 * n + 4) / 5
  }

  /** How many zero bits fill the last digit. */
  function Fill(n: nat): nat {
    5 * Characters(n) - 8 * n
  }

  /** The input's bits, filled with zero bits up to a multiple of five, as base 32 digits. */
  function Unpadded(input: bytes): (s: string)
    ensures |s| == Characters(|input|) && '=' !in s
  {
    Digits(Up(FromBigEndian(input), Fill(|input|)), Characters(|input|))
  }

  lemma {:induction false} FromBigEndianConcat(a: bytes, b: bytes)
    ensures FromBigEndian(a + b) == Up(FromBigEndian(a), 8 * |b|) + FromBigEndian(b)
    decreases |b|
  {
    if b == [] {
      assert a + [] == a;
    } else {
      var k := |b| - 1;
      FromBigEndianConcat(a, b[..k]);
      assert (a + b)[..|a + b| - 1] == a + b[..k];
      UpUp(FromBigEndian(a), 8 * k, 8);
      EightUp(Up(FromBigEndian(a), 8 * k));
    }
  }

  lemma {:induction false} Pow256IsUp(n: nat)
    ensures Pow256(n) == Up(1, 8 * n)
  {
    if n > 0 {
      Pow256IsUp(n - 1);
      UpUp(1, 8 * (n - 1), 8);
      EightUp(Up(1, 8 * (n - 1)));
    }
  }

  lemma FromBigEndianFits(input: bytes)
    ensures FromBigEndian(input) < Up(1, 8 * |input|)
  {
    EncodeDecode(input);
    Pow256IsUp(|input|);
  }

  lemma UpFits(v: nat, n: nat, k: nat, m: nat)
    requires v < Up(1, n) && n + k == m
    ensures Up(v, k) < Up(1, m)
  {
    UpMonotone(v, Up(1, n), k);
    UpUp(1, n, k);
  }

  /** The filled number has no more digits than are written. */
  lemma FilledFits(input: bytes)
    ensures Up(FromBigEndian(input), Fill(|input|)) < Up(1, 5 * Characters(|input|))
  {
    FromBigEndianFits(input);
    UpFits(FromBigEndian(input), 8 * |input|, Fill(|input|), 5 * Characters(|input|));
  }

  /** The data characters of a quantum are its bits alone. */
  lemma QuantumUnpadded(q: bytes)
    requires 1 <= |q| <= 5
    ensures Quantum(q) == Unpadded(q) + Repeat('=', 8 - Characters(|q|))
  {
    var n := |q|;
    var m, w := Characters(n), Up(FromBigEndian(q), Fill(n));
    assert DataCharacters(n) == m && Fill(n) + 5 * (8 - m) == 8 * (5 - n);
    UpUp(FromBigEndian(q), Fill(n), 5 * (8 - m));
    DigitsOfSum(w, 0, m, 8 - m, 5 * (8 - m));
    assert (Digits(w, m) + Digits(0, 8 - m))[..m] == Digits(w, m);
  }

  lemma FilledConcat(q: bytes, rest: bytes, fill: nat, bits: nat)
    requires bits == 8 * |rest| + fill
    ensures Up(FromBigEndian(q + rest), fill) == Up(FromBigEndian(q), bits) + Up(FromBigEndian(rest), fill)
  {
    var n := 8 * |rest|;
    FromBigEndianConcat(q, rest);
    UpAdd(Up(FromBigEndian(q), n), FromBigEndian(rest), fill);
    UpUp(FromBigEndian(q), n, fill);
  }

  lemma FiveMore(n: nat)
    ensures Characters(n + 5) == 8 + Characters(n) && Fill(n + 5) == Fill(n)
  {
  }

  lemma UnpaddedFive(q: bytes)
    requires |q| == 5
    ensures Unpadded(q) == Digits(FromBigEndian(q), 8)
  {
    FiveMore(0);
  }

  lemma UnpaddedLonger(q: bytes, rest: bytes)
    requires |q| == 5
    ensures Unpadded(q + rest) == Digits(Up(FromBigEndian(q + rest), Fill(|rest|)), 8 + Characters(|rest|))
  {
    FiveMore(|rest|);
  }

  lemma UnpaddedConcat(q: bytes, rest: bytes)
    requires |q| == 5
    ensures Unpadded(q + rest) == Unpadded(q) + Unpadded(rest)
  {
    var fill, m := Fill(|rest|), Characters(|rest|);
    UnpaddedFive(q);
    UnpaddedLonger(q, rest);
    var bits := 5 * m;
    FilledConcat(q, rest, fill, bits);
    FilledFits(rest);
    DigitsOfSum(FromBigEndian(q), Up(FromBigEndian(rest), fill), 8, m, bits);
  }

  /** Stripping the padding of the standard's encoding leaves the bits of the whole input. */
  lemma {:induction false} StandardIsUnpadded(input: bytes)
    ensures RStrip(Rfc4648(input)) == Unpadded(input)
    decreases |input|
  {
    if 1 <= |input| <= 5 {
      QuantumUnpadded(input);
      RStripPadding(Unpadded(input), 8 - Characters(|input|));
    } else if |input| > 5 {
      var q, rest := input[..5], input[5..];
      assert q + rest == input;
      QuantumUnpadded(q);
      assert Quantum(q) == Unpadded(q);
      StandardIsUnpadded(rest);
      RStripAfter(Quantum(q), Rfc4648(rest));
      UnpaddedConcat(q, rest);
    }
  }

  /** Device ids name the bytes they were made from. */
  lemma EncodingIsInjective(a: bytes, b: bytes)
    requires RStrip(Rfc4648(a)) == RStrip(Rfc4648(b))
    ensures a == b
  {
    StandardIsUnpadded(a);
    StandardIsUnpadded(b);
    var n := |a|;
    assert |b| == n;
    FilledFits(a);
    FilledFits(b);
    var v, w := FromBigEndian(a), FromBigEndian(b);
    DigitsAreInjective(Up(v, Fill(n)), Up(w, Fill(n)), Characters(n));
    if v < w { UpMonotone(v, w, Fill(n)); }
    if w < v { UpMonotone(w, v, Fill(n)); }
    EncodeDecode(a);
    EncodeDecode(b);
  }

  // ---------------------------------------------------------------------------
  // The phone's streaming encoder
  // ---------------------------------------------------------------------------

  /** A number in signed 32-bit arithmetic. */
  function Wrap32(x: int): (r: int)
    ensures -0x8000_0000 <= r < 0x8000_0000
  {
    (x + 0x8000_0000) % 0x1_0000_0000 - 0x8000_0000
  }

  function Shl(x: int, s: nat): int {
    Wrap32(Up(x, s))
  }

  /** The arithmetic shift, which keeps the sign. */
  function Shr(x: int, s: nat): int {
    Down(x, s)
  }

  /** Masking with `0x1f`; in two's complement this is the remainder also of a negative number. */
  function Low5(x: int): (r: nat)
    ensures r < 32
  {
    x % 32
  }

  /** `x shl 8 or b`: the low byte of the shifted number is zero, so no bit meets another. */
  function PushByte(x: int, b: byte): int {
    Shl(x, 8) + b
  }

  /** How many times the number went round. */
  function Turns(x: int): (q: int)
    ensures Wrap32(x) == x - 0x1_0000_0000 * q
  {
    (x + 0x8000_0000) / 0x1_0000_0000
  }

  lemma WrapDropsTurns(x: int, k: int)
    ensures Wrap32(x - 0x1_0000_0000 * k) == Wrap32(x)
  {
  }

  lemma WrapThenLowByte(x: int, b: byte)
    ensures Wrap32(0x100 * x) + b == Wrap32(0x100 * x + b)
  {
    var q := Turns(0x100 * x);
    WrapDropsTurns(0x100 * x + b, q);
    assert Wrap32(0x100 * x) == 0x100 * (x - 0x100_0000 * q);
  }

  lemma PushKeepsWrap(v: nat, b: byte)
    ensures PushByte(Wrap32(v), b) == Wrap32(v * 0x100 + b)
  {
    EightUp(Wrap32(v));
    WrapThenLowByte(Wrap32(v), b);
    WrapDropsTurns(v * 0x100 + b, 0x100 * Turns(v));
  }

  lemma Low5Drops(x: int, k: int)
    ensures Low5(x - 32 * k) == Low5(x)
  {
  }

  /** The mask reads the same five bits from the wrapped buffer as from the whole number. */
  lemma MaskIgnoresWrap(v: nat, s: nat)
    requires s <= 7
    ensures Low5(Shr(Wrap32(v), s)) == Low5(Down(v, s))
  {
    var q, n := Turns(v), 32;
    ThirtyTwoUp(q, n);
    assert Wrap32(v) == v - Up(q, n);
    UpUp(q, n - s, s);
    DownDrops(v, Up(q, n - s), s);
    UpUp(q, n - s - 5, 5);
    FiveUp(Up(q, n - s - 5));
    Low5Drops(Down(v, s), Up(q, n - s - 5));
  }

  lemma {:induction false} LastBitsIgnoreWrap(v: nat, s: nat)
    ensures Low5(Shl(Wrap32(v), s)) == Low5(Up(v, s))
  {
    var q, n := Turns(v), 32;
    var w := Up(Wrap32(v), s);
    ThirtyTwoUp(q, n);
    UpAdd(Wrap32(v), Up(q, n), s);
    UpUp(q, n, s);
    UpUp(q, s, n);
    ThirtyTwoUp(Up(q, s), n);
    assert Up(v, s) == w + 0x1_0000_0000 * Up(q, s);
    assert Wrap32(w) == w - 0x1_0000_0000 * Turns(w);
    Low5Drops(Up(v, s), 0x800_0000 * (Up(q, s) + Turns(w)));
  }

  /** One more digit out of the pending bits. */
  lemma DigitOut(v: nat, left: nat, m: nat)
    requires left >= 5
    ensures Digits(Down(v, left - 5), m + 1) == Digits(Down(v, left), m) + [Letter(Low5(Down(v, left - 5)))]
  {
    DownDown(v, left - 5, 5);
    FiveUp(Down(v, left - 5));
  }

  lemma ByteIn(v: nat, b: byte, left: nat)
    ensures Down(v * 0x100 + b, left + 8) == Down(v, left)
  {
    DownDown(v * 0x100 + b, 8, left);
    EightUp(v * 0x100 + b);
  }

  /** The bits left over at the end, moved up to fill the last digit. */
  lemma LastDigit(v: nat, left: nat, m: nat)
    requires left <= 5
    ensures Digits(Up(v, 5 - left), m + 1) == Digits(Down(v, left), m) + [Letter(Low5(Up(v, 5 - left)))]
  {
    DownUp(v, 5 - left, left);
    FiveUp(Up(v, 5 - left));
  }

  /** What the loops keep: the digits written are those of the bits no longer pending. */
  predicate Written(v: nat, left: nat, output: string) {
    output == Digits(Down(v, left), |output|)
  }

  /** The number after one more byte. */
  function Next(v: nat, b: byte): nat {
    v * 0x100 + b
  }

  lemma WriteDigit(v: nat, left: nat, output: string)
    requires Written(v, left, output) && 5 <= left <= 12
    ensures Written(v, left - 5, output + [Letter(Low5(Shr(Wrap32(v), left - 5)))])
  {
    MaskIgnoresWrap(v, left - 5);
    DigitOut(v, left, |output|);
  }

  lemma WriteLastDigit(v: nat, left: nat, output: string)
    requires Written(v, left, output) && left <= 5
    ensures output + [Letter(Low5(Shl(Wrap32(v), 5 - left)))] == Digits(Up(v, 5 - left), |output| + 1)
  {
    LastBitsIgnoreWrap(v, 5 - left);
    LastDigit(v, left, |output|);
  }

  lemma Finished(input: bytes, left: nat, output: string)
    requires left < 5 && 8 * |input| == 5 * |output| + left
    requires Written(FromBigEndian(input), left, output)
    ensures var last := [Letter(Low5(Shl(Wrap32(FromBigEndian(input)), 5 - left)))];
      var all := if left > 0 then output + last else output;
      all == RStrip(Rfc4648(input)) && |all| == Characters(|input|)
  {
    StandardIsUnpadded(input);
    if left > 0 { WriteLastDigit(FromBigEndian(input), left, output); }
  }

  lemma ReadByte(v: nat, b: byte, left: nat, output: string)
    requires Written(v, left, output)
    ensures PushByte(Wrap32(v), b) == Wrap32(Next(v, b))
    ensures Written(Next(v, b), left + 8, output)
  {
    PushKeepsWrap(v, b);
    ByteIn(v, b, left);
  }

  lemma TakeOneMore(input: bytes, k: nat)
    requires k < |input|
    ensures FromBigEndian(input[..k + 1]) == Next(FromBigEndian(input[..k]), input[k])
  {
    assert input[..k + 1][..k] == input[..k];
  }

  method Base32NoPadding(input: bytes) returns (output: string)
    ensures output == RStrip(Rfc4648(input))
    ensures |output| == (8 * |input| + 4) / 5
  {
    var alphabet := Alphabet();
    output := "";
    var buffer, bitsLeft := 0, 0;
    for k := 0 to |input|
      invariant 0 <= bitsLeft < 5 && 8 * k == 5 * |output| + bitsLeft
      invariant buffer == Wrap32(FromBigEndian(input[..k]))
      invariant Written(FromBigEndian(input[..k]), bitsLeft, output)
    {
      ReadByte(FromBigEndian(input[..k]), input[k], bitsLeft, output);
      TakeOneMore(input, k);
      ghost var v := FromBigEndian(input[..k + 1]);
      buffer := PushByte(buffer, input[k]);
      bitsLeft := bitsLeft + 8;
      while bitsLeft >= 5
        invariant 0 <= bitsLeft <= 12 && 8 * (k + 1) == 5 * |output| + bitsLeft
        invariant Written(v, bitsLeft, output)
      {
        WriteDigit(v, bitsLeft, output);
        output := output + [alphabet[Low5(Shr(buffer, bitsLeft - 5))]];
        bitsLeft := bitsLeft - 5;
      }
    }
    assert input[..|input|] == input;
    Finished(input, bitsLeft, output);
    if bitsLeft > 0 {
      output := output + [alphabet[Low5(Shl(buffer, 5 - bitsLeft))]];
    }
  }

  /** Ten bytes of digest give the same sixteen-character id on both sides. */
  method DeriveDeviceId(sha256: bytes -> bytes, publicKey: bytes) returns (id: string)
    requires |sha256(publicKey)| == 32
    ensures id == RStrip(Rfc4648(sha256(publicKey)[..10])) && |id| == 16
  {
    id := Base32NoPadding(sha256(publicKey)[..10]);
  }
}
