/** Go's `strconv.ParseUint(s, 16, 8)`, the call that turns one token of the
    compiled byte array into a byte, and the two-digit rendering it inverts. */
module Hex {
  import opened Bytes
  import opened Results

  /** The two ways ParseUint rejects its input. */
  datatype NumError =
    | ErrSyntax   // empty input or a byte that is not a base-16 digit
    | ErrRange    // the value does not fit in 8 bits

  /** Digit value of a base-16 digit (either case), None for any other byte. */
  function DigitValue(c: byte): (d: Option<nat>)
    ensures d.Some? ==> d.value < 16
  {
    if 0x30 <= c <= 0x39 then Some((c - 0x30) as nat)
    else if 0x61 <= c <= 0x66 then Some((c - 0x61) as nat + 10)
    else if 0x41 <= c <= 0x46 then Some((c - 0x41) as nat + 10)
    else None
  }

  predicate IsHexDigit(c: byte)
  {
    DigitValue(c).Some?
  }

  predicate AllHex(s: seq<byte>)
  {
    forall i :: 0 <= i < |s| ==> IsHexDigit(s[i])
  }

  function Pow16(n: nat): (p: nat)
    ensures p >= 1
  {
    if n == 0 then 1 else 16 * Pow16(n - 1)
  }

  /** Positional value of a string of base-16 digits: the leading digit
      weighs 16 to the power of the number of digits after it. */
  function Value(s: seq<byte>): nat
    requires AllHex(s)
  {
    if |s| == 0 then 0 else DigitValue(s[0]).value * Pow16(|s| - 1) + Value(s[1..])
  }

  /** `strconv.ParseUint(s, 16, 8)`. */
  function ParseUint8(s: seq<byte>): Result<byte, NumError>
  {
    if |s| == 0 then Failure(ErrSyntax) else Accumulate(s, 0)
  }

  /** ParseUint's digit loop with `n` accumulated so far: digits are consumed
      from the left, a non-digit is a syntax error, and the value exceeding
      255 is a range error reported at the digit that makes it overflow. */
  function Accumulate(s: seq<byte>, n: nat): Result<byte, NumError>
    requires n <= 255
    decreases |s|
  {
    if |s| == 0 then Success(n as byte)
    else match DigitValue(s[0])
      case None => Failure(ErrSyntax)
      case Some(d) =>
        if n * 16 + d > 255 then Failure(ErrRange) else Accumulate(s[1..], n * 16 + d)
  }

  lemma {:induction false} AccumulateSpec(s: seq<byte>, n: nat)
    requires n <= 255
    ensures Accumulate(s, n).Success? <==> AllHex(s) && n * Pow16(|s|) + Value(s) <= 255
    ensures Accumulate(s, n).Success? ==> Accumulate(s, n).value as int == n * Pow16(|s|) + Value(s)
    decreases |s|
  {
    if |s| > 0 {
      var t := s[1..];
      if DigitValue(s[0]).Some? {
        var d := DigitValue(s[0]).value;
        AllHexTail(s);
        if AllHex(s) {
          Regroup(n, d, Pow16(|t|), Value(t));
        }
        if n * 16 + d <= 255 {
          AccumulateSpec(t, n * 16 + d);
        }
      }
    }
  }

  lemma AllHexTail(s: seq<byte>)
    requires |s| > 0 && IsHexDigit(s[0])
    ensures AllHex(s) <==> AllHex(s[1..])
  {
    if AllHex(s[1..]) {
      forall i | 0 <= i < |s| ensures IsHexDigit(s[i]) {
        if i > 0 { assert s[i] == s[1..][i - 1]; }
      }
    }
  }

  /** The arithmetic of one loop step: shifting the accumulator in front of
      the remaining digits. */
  lemma Regroup(n: nat, d: nat, p: nat, v: nat)
    requires p >= 1
    ensures n * (16 * p) + (d * p + v) == (n * 16 + d) * p + v
    ensures (n * 16 + d) * p + v >= n * 16 + d
  {
    assert n * (16 * p) == (n * 16) * p;
    assert (n * 16) * p + d * p == (n * 16 + d) * p;
    assert (n * 16 + d) * p >= (n * 16 + d) * 1;
  }

  /** ParseUint accepts exactly the non-empty digit strings whose value fits
      in a byte (leading zeros allowed), and returns that value. */
  lemma ParseUint8Spec(s: seq<byte>)
    ensures ParseUint8(s).Success? <==> |s| > 0 && AllHex(s) && Value(s) <= 255
    ensures ParseUint8(s).Success? ==> ParseUint8(s).value as int == Value(s)
    ensures |s| == 0 ==> ParseUint8(s) == Failure(ErrSyntax)
  {
    if |s| > 0 {
      AccumulateSpec(s, 0);
    }
  }

  /** Base-16 digit for `d`, in lower or upper case. */
  function DigitChar(d: nat, lower: bool): (c: byte)
    requires d < 16
    ensures DigitValue(c) == Some(d)
  {
    if d < 10 then (0x30 + d) as byte
    else if lower then (0x61 + d - 10) as byte
    else (0x41 + d - 10) as byte
  }

  /** The two digits of a byte, as `%02x` or `%02X` prints them. */
  function TwoDigits(b: byte, lower: bool): seq<byte>
  {
    [DigitChar(b as nat / 16, lower), DigitChar(b as nat % 16, lower)]
  }

  /** ParseUint reads back what TwoDigits writes. */
  lemma ParseTwoDigits(b: byte, lower: bool)
    ensures ParseUint8(TwoDigits(b, lower)) == Success(b)
  {
    var s := TwoDigits(b, lower);
    assert AllHex(s);
    assert Value(s) == (b as nat / 16) * 16 + b as nat % 16 by {
      assert Value(s[1..]) == b as nat % 16;
    }
    ParseUint8Spec(s);
  }
}
