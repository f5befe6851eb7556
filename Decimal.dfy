/**
 * Decimal rendering of an unsigned integer, as Rust's `{}` formatting of a `usize` writes it:
 * the shortest run of ASCII digits, without leading zeros, and the single digit `0` for zero.
 * The parser is the partner used to read a Content-Length field back.
 */
module Decimal {
  import opened Bytes

  /** The ASCII code of the digit `0`. */
  const ZERO: byte := 48

  predicate IsDigit(b: byte) {
    ZERO <= b <= ZERO + 9
  }

  predicate AllDigits(s: seq<byte>) {
    forall i :: 0 <= i < |s| ==> IsDigit(s[i])
  }

  /** A digit string as `{}` prints it: non-empty, and no leading `0` unless it is just `0`. */
  predicate Canonical(s: seq<byte>) {
    |s| >= 1 && AllDigits(s) && (s[0] == ZERO ==> |s| == 1)
  }

  /** The ASCII digit for `d`. */
  function DigitOf(d: nat): (b: byte)
    requires d < 10
    ensures IsDigit(b) && (b - ZERO) as int == d
  {
    ZERO + d as byte
  }

  /** The value of a string of decimal digits, most significant first; `0` for the empty string. */
  function ParseDecimal(s: seq<byte>): nat
    requires AllDigits(s)
  {
    if |s| == 0 then 0 else ParseDecimal(s[..|s| - 1]) * 10 + (s[|s| - 1] - ZERO) as int
  }

  /** The decimal digits of `n`; they are canonical and parse back to `n`. */
  function NatToDecimal(n: nat): (r: seq<byte>)
    ensures Canonical(r)
    ensures ParseDecimal(r) == n
  {
    if n < 10 then
      [DigitOf(n)]
    else
      var high := NatToDecimal(n / 10);
      var r := high + [DigitOf(n % 10)];
      assert r[..|r| - 1] == high;
      r
  }

  /** A canonical digit string whose first digit is not `0` denotes a positive number. */
  lemma {:induction false} ParseDecimalPositive(s: seq<byte>)
    requires |s| >= 1 && AllDigits(s) && s[0] != ZERO
    ensures ParseDecimal(s) >= 1
  {
    if |s| > 1 {
      var high := s[..|s| - 1];
      assert high[0] == s[0];
      ParseDecimalPositive(high);
    }
  }

  /** Every canonical digit string is the rendering of the number it denotes. */
  lemma {:induction false} DecimalOfParse(s: seq<byte>)
    requires Canonical(s)
    ensures NatToDecimal(ParseDecimal(s)) == s
  {
    var n := ParseDecimal(s);
    if |s| == 1 {
      assert ParseDecimal(s) == (s[0] - ZERO) as int;
    } else {
      var high := s[..|s| - 1];
      assert high[0] == s[0];
      ParseDecimalPositive(high);
      DecimalOfParse(high);
      assert s == high + [s[|s| - 1]];
    }
  }

  /** Two canonical digit strings with the same value are equal. */
  lemma CanonicalUnique(a: seq<byte>, b: seq<byte>)
    requires Canonical(a) && Canonical(b) && ParseDecimal(a) == ParseDecimal(b)
    ensures a == b
  {
    DecimalOfParse(a);
    DecimalOfParse(b);
  }
}
