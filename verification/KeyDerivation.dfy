/**
  Key derivation and pairing codes: the phone's HKDF loop and unsigned 64-bit arithmetic, the
  standard's byte string, and the desktop's unbounded integers. HMAC-SHA-256 is a parameter.
 */
module KeyDerivation {
  import opened Wrappers
  import opened Bytes
  import opened Decimals

  type Hmac = (bytes, bytes) -> bytes

  const HASH_LENGTH: nat := 32

  ghost predicate IsHmacSha256(hmac: Hmac) {
    forall key, text :: |hmac(key, text)| == HASH_LENGTH
  }

  // ---------------------------------------------------------------------------
  // HKDF
  // ---------------------------------------------------------------------------

  /** T(n) of section 2.3 of RFC 5869; the counter is one octet. */
  function Block(hmac: Hmac, prk: bytes, info: bytes, n: nat): bytes {
    if n == 0 then [] else hmac(prk, Block(hmac, prk, info, n - 1) + info + [n % 0x100])
  }

  lemma BlockLength(hmac: Hmac, prk: bytes, info: bytes, n: nat)
    requires IsHmacSha256(hmac) && n > 0
    ensures |Block(hmac, prk, info, n)| == HASH_LENGTH
  {
  }

  /** The `i`-th byte of T(1) | T(2) | ... */
  function KeyByte(hmac: Hmac, prk: bytes, info: bytes, i: nat): byte
    requires IsHmacSha256(hmac)
  {
    BlockLength(hmac, prk, info, i / HASH_LENGTH + 1);
    Block(hmac, prk, info, i / HASH_LENGTH + 1)[i % HASH_LENGTH]
  }

  /** Extract and expand: sections 2.2 and 2.3 of RFC 5869. */
  function Hkdf(hmac: Hmac, ikm: bytes, salt: bytes, info: bytes, length: nat): (okm: bytes)
    requires IsHmacSha256(hmac)
    ensures |okm| == length
  {
    seq(length, i requires 0 <= i < length => KeyByte(hmac, hmac(salt, ikm), info, i))
  }

  /**
    Sections 2.2 and 2.3 of RFC 5869 in the bytes of the result: each full block of 32 bytes,
    up to the 255th, is the HMAC under the extracted key of the block before it, the info and
    its own number as one octet; there is no block before the first.
   */
  lemma KeyIsChained(hmac: Hmac, ikm: bytes, salt: bytes, info: bytes, length: nat, n: nat)
    requires IsHmacSha256(hmac) && 1 <= n <= 255 && 32 * n <= length
    ensures var okm := Hkdf(hmac, ikm, salt, info, length);
      okm[32 * (n - 1)..32 * n]
      == hmac(hmac(salt, ikm), (if n == 1 then [] else okm[32 * (n - 2)..32 * (n - 1)]) + info + [n])
  {
    BlockOfKey(hmac, ikm, salt, info, length, n);
    if n > 1 { BlockOfKey(hmac, ikm, salt, info, length, n - 1); }
  }

  lemma BlockOfKey(hmac: Hmac, ikm: bytes, salt: bytes, info: bytes, length: nat, n: nat)
    requires IsHmacSha256(hmac) && 1 <= n && 32 * n <= length
    ensures Hkdf(hmac, ikm, salt, info, length)[32 * (n - 1)..32 * n] == Block(hmac, hmac(salt, ikm), info, n)
  {
    var okm, prk := Hkdf(hmac, ikm, salt, info, length), hmac(salt, ikm);
    BlockLength(hmac, prk, info, n);
    forall j | 0 <= j < 32 ensures okm[32 * (n - 1)..32 * n][j] == Block(hmac, prk, info, n)[j] {
      var i := 32 * (n - 1) + j;
      assert i / 32 == n - 1 && i % 32 == j;
      assert okm[i] == KeyByte(hmac, prk, info, i);
    }
  }

  /** A shorter result is the beginning of a longer one, so the last block is cut where the length ends. */
  lemma ShorterKeyIsPrefix(hmac: Hmac, ikm: bytes, salt: bytes, info: bytes, short: nat, long: nat)
    requires IsHmacSha256(hmac) && short <= long
    ensures Hkdf(hmac, ikm, salt, info, long)[..short] == Hkdf(hmac, ikm, salt, info, short)
  {
  }

  /** The exceptions of the phone's platform. */
  datatype Failure = EmptyKey | NegativeCount | DivisionByZero

  /**
    The phone's loop. Up to 255 blocks the counter byte is the round number, as the standard
    asks; after that it goes round.
   */
  method HkdfSha256(hmac: Hmac, ikm: bytes, salt: bytes, info: bytes, length: int)
    returns (okm: Result<bytes, Failure>, ghost rounds: nat)
    requires IsHmacSha256(hmac)
    ensures okm == if salt == [] then Err(EmptyKey)
                   else if length < 0 then Err(NegativeCount)
                   else Ok(Hkdf(hmac, ikm, salt, info, length))
    ensures okm.Ok? ==> HASH_LENGTH * rounds - HASH_LENGTH < length <= HASH_LENGTH * rounds
  {
    rounds := 0;
    if salt == [] { return Err(EmptyKey), 0; }
    var prk := hmac(salt, ikm);
    var t: bytes := [];
    var output: bytes := [];
    var counter := 1;
    while |output| < length
      invariant counter == rounds + 1 >= 1
      invariant t == Block(hmac, prk, info, rounds)
      invariant |output| == HASH_LENGTH * rounds
      invariant rounds > 0 ==> |output| < length + HASH_LENGTH
      invariant forall i :: 0 <= i < |output| ==> output[i] == KeyByte(hmac, prk, info, i)
    {
      var octet: byte := counter % 0x100;
      t := hmac(prk, t + info + [octet]);
      ghost var before := output;
      output := output + t;
      forall i | |before| <= i < |output|
        ensures output[i] == KeyByte(hmac, prk, info, i)
      {
        assert i / HASH_LENGTH == rounds && i % HASH_LENGTH == i - |before|;
      }
      counter := counter + 1;
      rounds := rounds + 1;
    }
    if length < 0 { return Err(NegativeCount), rounds; }
    assert output[..length] == Hkdf(hmac, ikm, salt, info, length);
    return Ok(output[..length]), rounds;
  }

  // ---------------------------------------------------------------------------
  // Unsigned 64-bit arithmetic
  // ---------------------------------------------------------------------------

  const WORD: nat := 0x1_0000_0000_0000_0000

  function Wrap64(n: nat): (r: nat)
    ensures r < WORD
  {
    n % WORD
  }

  function Pow10(n: nat): (p: nat)
    ensures p > 0
  {
    if n == 0 then 1 else 10 * Pow10(n - 1)
  }

  lemma {:induction false} Pow10Monotone(m: nat, n: nat)
    requires m <= n
    ensures Pow10(m) <= Pow10(n)
    decreases n
  {
    if m < n { Pow10Monotone(m, n - 1); }
  }

  /** Nineteen decimal digits fit a word and twenty do not. */
  lemma WordDigits(n: nat)
    ensures n <= 19 <==> Pow10(n) < WORD
  {
    assert Pow10(5) == 10_0000;
    assert Pow10(10) == 10 * (10 * (10 * (10 * (10 * Pow10(5)))));
    assert Pow10(15) == 10 * (10 * (10 * (10 * (10 * Pow10(10)))));
    assert Pow10(19) == 10 * (10 * (10 * (10 * Pow10(15))));
    assert Pow10(20) == 10 * Pow10(19);
    if n <= 19 {
      Pow10Monotone(n, 19);
    } else {
      Pow10Monotone(20, n);
    }
  }

  /** The phone's power of ten, once it has wrapped round to nothing, stays there. */
  lemma {:induction false} ZeroStays(m: nat, n: nat)
    requires m <= n && Wrap64(Pow10(m)) == 0
    ensures Wrap64(Pow10(n)) == 0
    decreases n
  {
    if m < n {
      ZeroStays(m, n - 1);
      WrapTimesTen(Pow10(n - 1));
    }
  }

  lemma FiveMoreDigits(n: nat)
    ensures Pow10(n + 5) == 10_0000 * Pow10(n)
  {
    assert Pow10(n + 2) == 10 * (10 * Pow10(n));
    assert Pow10(n + 4) == 10 * (10 * Pow10(n + 2));
  }

  /** The power of ten wraps round to nothing from 64 digits on. */
  lemma ZeroExactly(length: nat)
    ensures Wrap64(Pow10(length)) == 0 <==> length >= 64
  {
    SixtyFourDigits();
    if length >= 64 {
      ZeroStays(64, length);
    } else if Wrap64(Pow10(length)) == 0 {
      ZeroStays(length, 63);
    }
  }

  lemma SixtyFourDigits()
    ensures Wrap64(Pow10(63)) != 0
    ensures Wrap64(Pow10(64)) == 0
  {
    assert Pow10(3) == 1000;
    FiveMoreDigits(3); FiveMoreDigits(8); FiveMoreDigits(13); FiveMoreDigits(18);
    FiveMoreDigits(23); FiveMoreDigits(28); FiveMoreDigits(33); FiveMoreDigits(38);
    FiveMoreDigits(43); FiveMoreDigits(48); FiveMoreDigits(53); FiveMoreDigits(58);
    assert Pow10(64) == 10 * Pow10(63);
  }

  /** On the phone a code fails exactly from 64 digits on, with a division by zero. */
  lemma PhoneCodeFailsExactly(raw: bytes, length: nat)
    ensures PhoneCode(raw, length) == Err(DivisionByZero) <==> length >= 64
    ensures PhoneCode(raw, length).Ok? <==> length < 64
  {
    ZeroExactly(length);
  }

  method WrappingPow10(length: nat) returns (value: nat)
    ensures value == Wrap64(Pow10(length))
  {
    value := 1;
    for i := 0 to length
      invariant value == Wrap64(Pow10(i))
    {
      WrapTimesTen(Pow10(i));
      value := Wrap64(value * 10);
    }
  }

  lemma WrapDropsTurns(x: nat, y: nat, k: nat)
    requires y == x + WORD * k
    ensures Wrap64(x) == Wrap64(y)
  {
  }

  lemma WrapTimesTen(n: nat)
    ensures Wrap64(Wrap64(n) * 10) == Wrap64(10 * n)
  {
    var q := n / WORD;
    assert n == WORD * q + Wrap64(n);
    WrapDropsTurns(Wrap64(n) * 10, 10 * n, 10 * q);
  }

  /** `acc shl 8` plus a byte, wrapping, over all bytes from the left. */
  function Fold(raw: bytes): nat {
    if raw == [] then 0 else Wrap64(Wrap64(Fold(raw[..|raw| - 1]) * 0x100) + raw[|raw| - 1])
  }

  lemma {:induction false} FoldIsBigEndian(raw: bytes)
    requires |raw| <= 8
    ensures Fold(raw) == FromBigEndian(raw) < WORD
  {
    if raw != [] {
      var front := raw[..|raw| - 1];
      FoldIsBigEndian(front);
      SevenBytesFit(front);
      NoWrap(FromBigEndian(front), raw[|raw| - 1]);
    }
  }

  lemma SevenBytesFit(front: bytes)
    requires |front| <= 7
    ensures FromBigEndian(front) < 0x100_0000_0000_0000
  {
    EncodeDecode(front);
    Widths();
    PowersGrow(|front|, 7);
    assert Pow256(8) == 0x100 * Pow256(7);
  }

  lemma NoWrap(v: nat, b: byte)
    requires v < 0x100_0000_0000_0000
    ensures Wrap64(Wrap64(v * 0x100) + b) == v * 0x100 + b < WORD
  {
  }

  lemma {:induction false} PowersGrow(m: nat, n: nat)
    requires m <= n
    ensures Pow256(m) <= Pow256(n)
    decreases n
  {
    if m < n { PowersGrow(m, n - 1); }
  }

  // ---------------------------------------------------------------------------
  // Pairing codes
  // ---------------------------------------------------------------------------

  function Zeros(n: nat): (s: string)
    ensures |s| == n && forall i :: 0 <= i < n ==> s[i] == '0'
  {
    seq(n, _ => '0')
  }

  /** Zeros in front up to the length; a longer string is left alone. */
  function PadStart(s: string, length: nat): string {
    if |s| < length then Zeros(length - |s|) + s else s
  }

  /** The desktop's code, from eight derived bytes. */
  function DesktopCode(raw: bytes, length: nat): string {
    PadStart(Decimal(FromBigEndian(raw) % Pow10(length)), length)
  }

  /** The phone's code, from eight derived bytes. */
  function PhoneCode(raw: bytes, length: nat): Result<string, Failure> {
    var modulus := Wrap64(Pow10(length));
    if modulus == 0 then Err(DivisionByZero)
    else Ok(PadStart(Decimal(Fold(raw) % modulus), length))
  }

  lemma {:induction false} DecimalLength(n: nat, k: nat)
    requires k > 0 && n < Pow10(k)
    ensures |Decimal(n)| <= k
  {
    if n >= 10 {
      assert k > 1 by { assert Pow10(1) == 10; }
      DecimalLength(n / 10, k - 1);
    }
  }

  lemma {:induction false} LeadingZeros(k: nat, s: string)
    requires forall i :: 0 <= i < |s| ==> IsDigit(s[i])
    ensures FromDecimal(Zeros(k) + s) == FromDecimal(s)
    decreases k + |s|
  {
    var all := Zeros(k) + s;
    if s != [] {
      assert all[..|all| - 1] == Zeros(k) + s[..|s| - 1];
      LeadingZeros(k, s[..|s| - 1]);
    } else if k > 0 {
      assert all[..|all| - 1] == Zeros(k - 1) + s;
      LeadingZeros(k - 1, s);
    }
  }

  lemma PadStartValue(n: nat, length: nat)
    ensures forall c <- PadStart(Decimal(n), length) :: IsDigit(c)
    ensures FromDecimal(PadStart(Decimal(n), length)) == n
  {
    FromDecimalOfDecimal(n);
    if |Decimal(n)| < length { LeadingZeros(length - |Decimal(n)|, Decimal(n)); }
  }

  /** A code has exactly the digits asked for and stands for the derived number's last digits. */
  lemma {:induction false} CodeDigits(raw: bytes, length: nat)
    requires length > 0
    ensures var code := DesktopCode(raw, length);
      && |code| == length
      && (forall c <- code :: IsDigit(c))
      && FromDecimal(code) == FromBigEndian(raw) % Pow10(length)
  {
    var n := FromBigEndian(raw) % Pow10(length);
    DecimalLength(n, length);
    PadStartValue(n, length);
  }

  /** The number without its last `k` decimal digits. */
  function DropDigits(n: nat, k: nat): nat {
    if k == 0 then n else DropDigits(n / 10, k - 1)
  }

  lemma {:induction false} DigitAt(s: string, i: nat)
    requires i < |s| && forall c <- s :: IsDigit(c)
    ensures DigitValue(s[i]) == DropDigits(FromDecimal(s), |s| - 1 - i) % 10
    decreases |s|
  {
    if i < |s| - 1 {
      assert FromDecimal(s) / 10 == FromDecimal(s[..|s| - 1]);
      DigitAt(s[..|s| - 1], i);
    }
  }

  /** Digit `i` from the left is the number's decimal digit at that place. */
  lemma CodeDigitAt(raw: bytes, length: nat, i: nat)
    requires i < length
    ensures var code := DesktopCode(raw, length);
      && |code| == length && IsDigit(code[i])
      && DigitValue(code[i]) == DropDigits(FromBigEndian(raw) % Pow10(length), length - 1 - i) % 10
  {
    CodeDigits(raw, length);
    var code := DesktopCode(raw, length);
    assert code[i] in code;
    DigitAt(code, i);
  }

  /**
    When both devices show the same code for the same eight bytes: always up to nineteen
    digits; from twenty on, only when the number is below the power of ten as the phone's word holds it.
   */
  lemma CodesAgreeExactly(raw: bytes, length: nat)
    requires |raw| == 8
    ensures PhoneCode(raw, length) == Ok(DesktopCode(raw, length))
       <==> length <= 19 || FromBigEndian(raw) < Wrap64(Pow10(length))
  {
    if length <= 19 { ShortCodesAgree(raw, length); } else { LongCodesAgreeExactly(raw, length); }
  }

  lemma ShortCodesAgree(raw: bytes, length: nat)
    requires |raw| == 8 && length <= 19
    ensures PhoneCode(raw, length) == Ok(DesktopCode(raw, length))
  {
    FoldIsBigEndian(raw);
    WordDigits(length);
    BelowWord(Pow10(length));
  }

  lemma BelowWord(n: nat)
    requires n < WORD
    ensures Wrap64(n) == n
  {
  }

  lemma LongCodesAgreeExactly(raw: bytes, length: nat)
    requires |raw| == 8 && length > 19
    ensures PhoneCode(raw, length) == Ok(DesktopCode(raw, length)) <==> FromBigEndian(raw) < Wrap64(Pow10(length))
  {
    FoldIsBigEndian(raw);
    WordDigits(length);
    LongCodesAgree(FromBigEndian(raw), Pow10(length), Wrap64(Pow10(length)), length);
  }

  lemma LongCodesAgree(v: nat, p: nat, w: nat, length: nat)
    requires v < p
    ensures w > 0 ==>
      (PadStart(Decimal(v % w), length) == PadStart(Decimal(v % p), length) <==> v < w)
  {
    if w > 0 {
      UnchangedByRemainder(v, p);
      UnchangedByRemainder(v, w);
      PadStartValue(v, length);
      PadStartValue(v % w, length);
    }
  }

  lemma UnchangedByRemainder(v: nat, p: nat)
    requires p > 0
    ensures v % p == v <==> v < p
  {
    if v < p { assert v / p == 0; }
  }

  /** So twenty digits are never safe: some bytes give no code, or another one. */
  lemma {:induction false} LongCodesDisagree(length: nat) returns (raw: bytes)
    requires length >= 20
    ensures |raw| == 8 && PhoneCode(raw, length) != Ok(DesktopCode(raw, length))
  {
    Widths();
    raw := BigEndian(Wrap64(Pow10(length)), 8);
    DecodeEncode(Wrap64(Pow10(length)), 8);
    CodesAgreeExactly(raw, length);
  }

  const PAIRING_CODE_INFO: bytes := Ascii("linkable-pair-code-v1")

  method DerivePairingCode(
    hmac: Hmac, pairingNonce: bytes, challengeNonce: bytes, initiatorKey: bytes, acceptorKey: bytes, length: nat
  ) returns (code: Result<string, Failure>)
    requires IsHmacSha256(hmac)
    ensures var raw := Hkdf(hmac, pairingNonce + challengeNonce, initiatorKey + acceptorKey, PAIRING_CODE_INFO, 8);
      && (code == Ok(DesktopCode(raw, length)) <==>
          initiatorKey + acceptorKey != [] &&
          (length <= 19 || FromBigEndian(raw) < Wrap64(Pow10(length))))
      && code == if initiatorKey + acceptorKey == [] then Err(EmptyKey) else PhoneCode(raw, length)
  {
    ghost var reference := Hkdf(hmac, pairingNonce + challengeNonce, initiatorKey + acceptorKey, PAIRING_CODE_INFO, 8);
    CodesAgreeExactly(reference, length);
    var raw, _ := HkdfSha256(hmac, pairingNonce + challengeNonce, initiatorKey + acceptorKey, PAIRING_CODE_INFO, 8);
    if raw.Err? { return Err(raw.error); }
    var modulus := WrappingPow10(length);
    if modulus == 0 { return Err(DivisionByZero); }
    return Ok(PadStart(Decimal(Fold(raw.value) % modulus), length));
  }
}
