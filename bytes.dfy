/**
 * Bytes, the ASCII bytes the Bencode grammar uses, and the decimal text that
 * the encoder writes (`Int.toString`, `Long.toString`) and the parser reads
 * back (`String.toInt`, `String.toLong`).
 */
module Bytes {
  import opened Wrappers

  newtype byte = b: int | 0 <= b < 0x100

  const ASCII_ZERO: byte := 0x30   // '0'
  const ASCII_NINE: byte := 0x39   // '9'
  const ASCII_COLON: byte := 0x3A  // ':'
  const ASCII_PLUS: byte := 0x2B   // '+'
  const ASCII_MINUS: byte := 0x2D  // '-'
  const ASCII_D: byte := 0x64      // 'd'
  const ASCII_E: byte := 0x65      // 'e'
  const ASCII_I: byte := 0x69      // 'i'
  const ASCII_L: byte := 0x6C      // 'l'

  const INT_MIN: int := -0x8000_0000
  const INT_MAX: int := 0x7FFF_FFFF
  const LONG_MIN: int := -0x8000_0000_0000_0000
  const LONG_MAX: int := 0x7FFF_FFFF_FFFF_FFFF

  /** Concatenation is associative; stated once so that proofs can regroup a written stream. */
  lemma AppendAssoc<T>(a: seq<T>, b: seq<T>, c: seq<T>)
    ensures a + (b + c) == (a + b) + c
  {
  }

  predicate IsInt(n: int) { INT_MIN <= n <= INT_MAX }
  predicate IsLong(n: int) { LONG_MIN <= n <= LONG_MAX }

  predicate IsDigit(b: byte) { ASCII_ZERO <= b <= ASCII_NINE }

  predicate AllDigits(t: seq<byte>) {
    forall k :: 0 <= k < |t| ==> IsDigit(t[k])
  }

  function DigitByte(d: nat): (b: byte)
    requires d < 10
    ensures IsDigit(b) && (b - ASCII_ZERO) as int == d
  {
    (ASCII_ZERO as int + d) as byte
  }

  /** The decimal digits of `n`, most significant first. */
  function DecimalText(n: nat): (r: seq<byte>)
    ensures 0 < |r|
  {
    if n < 10 then [DigitByte(n)] else DecimalText(n / 10) + [DigitByte(n % 10)]
  }

  /** `DecimalText` writes only digits, and no leading zero. */
  lemma {:induction false} DecimalTextDigits(n: nat)
    ensures AllDigits(DecimalText(n))
    ensures DecimalText(n)[0] == ASCII_ZERO ==> n == 0 && |DecimalText(n)| == 1
    decreases n
  {
    if n >= 10 {
      DecimalTextDigits(n / 10);
      assert DecimalText(n)[0] == DecimalText(n / 10)[0];
    }
  }

  /**
   * The number a run of decimal digits denotes (leading zeros allowed); the
   * callers check `AllDigits` first.
   */
  function DigitsValue(t: seq<byte>): int
  {
    if t == [] then 0 else 10 * DigitsValue(t[..|t| - 1]) + (t[|t| - 1] as int - ASCII_ZERO as int)
  }

  /** `toString` of a Kotlin `Int` or `Long`: a '-' before negative values, no '+'. */
  function SignedText(n: int): (r: seq<byte>)
    ensures 0 < |r|
  {
    if n < 0 then [ASCII_MINUS] + DecimalText(-n) else DecimalText(n)
  }

  /** `SignedText` writes digits, with at most a '-' in front. */
  lemma SignedTextDigits(n: int)
    ensures forall k :: 0 <= k < |SignedText(n)| ==>
      IsDigit(SignedText(n)[k]) || (k == 0 && n < 0 && SignedText(n)[k] == ASCII_MINUS)
  {
    if n < 0 {
      DecimalTextDigits(-n);
      assert forall k :: 1 <= k < |SignedText(n)| ==> SignedText(n)[k] == DecimalText(-n)[k - 1];
    } else {
      DecimalTextDigits(n);
    }
  }

  /**
   * The grammar `toInt` and `toLong` accept, without the range check: one optional
   * sign ('+' or '-') followed by at least one ASCII digit.
   */
  function ParseSigned(t: seq<byte>): (r: Option<int>)
    ensures r.Some? <==>
      (0 < |t| && AllDigits(t)) ||
      (1 < |t| && (t[0] == ASCII_MINUS || t[0] == ASCII_PLUS) && AllDigits(t[1..]))
  {
    if |t| == 0 then None
    else if t[0] == ASCII_MINUS || t[0] == ASCII_PLUS then
      if |t| == 1 || !AllDigits(t[1..]) then None
      else if t[0] == ASCII_MINUS then Some(-(DigitsValue(t[1..]) as int))
      else Some(DigitsValue(t[1..]))
    else if AllDigits(t) then Some(DigitsValue(t))
    else None
  }

  /** `String.toInt()`: None stands for the NumberFormatException. */
  function ParseInt(t: seq<byte>): (r: Option<int>)
    ensures r.Some? ==> IsInt(r.value)
  {
    match ParseSigned(t)
    case Some(n) => if IsInt(n) then Some(n) else None
    case None => None
  }

  /** `String.toLong()`: None stands for the NumberFormatException. */
  function ParseLong(t: seq<byte>): (r: Option<int>)
    ensures r.Some? ==> IsLong(r.value)
  {
    match ParseSigned(t)
    case Some(n) => if IsLong(n) then Some(n) else None
    case None => None
  }

  /** `Long.toInt()`: keeps the low 32 bits, read as a signed two's-complement value. */
  function ToInt(n: int): (r: int)
    ensures IsInt(r)
    ensures (n - r) % 0x1_0000_0000 == 0
    ensures IsInt(n) ==> r == n
  {
    var low := n % 0x1_0000_0000;
    if low <= INT_MAX then low else low - 0x1_0000_0000
  }

  lemma {:induction false} DigitsValueAppend(t: seq<byte>, b: byte)
    ensures DigitsValue(t + [b]) == 10 * DigitsValue(t) + (b as int - ASCII_ZERO as int)
  {
    assert (t + [b])[..|t + [b]| - 1] == t;
  }

  /** Reading back the decimal text of `n` gives `n`. */
  lemma {:induction false} DecimalRoundTrip(n: nat)
    ensures DigitsValue(DecimalText(n)) == n
    decreases n
  {
    if n >= 10 {
      DecimalRoundTrip(n / 10);
      DigitsValueAppend(DecimalText(n / 10), DigitByte(n % 10));
    }
  }

  /** `toLong` (and `toInt`, in range) inverts `toString`. */
  lemma SignedRoundTrip(n: int)
    ensures ParseSigned(SignedText(n)) == Some(n)
    ensures IsLong(n) ==> ParseLong(SignedText(n)) == Some(n)
    ensures IsInt(n) ==> ParseInt(SignedText(n)) == Some(n)
  {
    if n < 0 {
      DecimalRoundTrip(-n);
      DecimalTextDigits(-n);
      assert SignedText(n)[1..] == DecimalText(-n);
    } else {
      DecimalRoundTrip(n);
      DecimalTextDigits(n);
      assert DecimalText(n)[0] != ASCII_MINUS && DecimalText(n)[0] != ASCII_PLUS;
    }
  }

}
