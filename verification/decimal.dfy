/**
  Decimal integer text: the formatting used inside the model's token encoding and the
  parsing done by Go's `strconv.ParseInt(s, 10, bitSize)` and `strconv.Atoi`.
*/
module Decimal {
  import opened Wrappers

  predicate IsDigit(c: char) {
    '0' <= c <= '9'
  }

  predicate AllDigits(s: string) {
    forall i :: 0 <= i < |s| ==> IsDigit(s[i])
  }

  function DigitChar(d: nat): (c: char)
    requires d < 10
    ensures IsDigit(c)
  {
    (('0' as int) + d) as char
  }

  function DigitValue(c: char): (d: nat)
    requires IsDigit(c)
    ensures d < 10 && DigitChar(d) == c
  {
    (c as int) - ('0' as int)
  }

  /** The number a non-empty or empty run of decimal digits denotes (leading zeros allowed). */
  function Value(s: string): nat
    requires AllDigits(s)
  {
    if s == [] then 0 else Value(s[..|s| - 1]) * 10 + DigitValue(s[|s| - 1])
  }

  /** Shortest decimal text of a natural number. */
  function FormatNat(n: nat): (s: string)
    ensures |s| > 0 && AllDigits(s)
    decreases n
  {
    if n < 10 then [DigitChar(n)] else FormatNat(n / 10) + [DigitChar(n % 10)]
  }

  lemma {:induction false} ValueOfFormatNat(n: nat)
    ensures Value(FormatNat(n)) == n
    decreases n
  {
    if n >= 10 {
      var s := FormatNat(n);
      assert s[..|s| - 1] == FormatNat(n / 10);
      ValueOfFormatNat(n / 10);
    }
  }

  /** Decimal text of an integer, with a leading '-' when negative. */
  function FormatInt(i: int): string {
    if i < 0 then "-" + FormatNat(-i) else FormatNat(i)
  }

  /**
    The syntax Go's base-10 integer parsers accept: one optional '+' or '-' sign followed by
    at least one ASCII digit and nothing else. The range check is separate (ParseInt).
  */
  function ParseDecimal(s: string): (r: Option<int>)
    ensures r.Some? <==> (|s| > 0 && AllDigits(s)) || (|s| > 1 && s[0] in "+-" && AllDigits(s[1..]))
  {
    if |s| > 0 && (s[0] == '+' || s[0] == '-') then
      var body := s[1..];
      if |body| > 0 && AllDigits(body) then
        Some(if s[0] == '-' then -(Value(body) as int) else Value(body))
      else None
    else if |s| > 0 && AllDigits(s) then Some(Value(s))
    else None
  }

  lemma ParseFormatInt(i: int)
    ensures ParseDecimal(FormatInt(i)) == Some(i)
  {
    if i < 0 {
      var s := FormatInt(i);
      assert s[1..] == FormatNat(-i);
      ValueOfFormatNat(-i);
    } else {
      ValueOfFormatNat(i);
    }
  }

  function Pow2(n: nat): (p: int)
    ensures p >= 1
  {
    if n == 0 then 1 else 2 * Pow2(n - 1)
  }

  /**
    `strconv.ParseInt(s, 10, bitSize)`: the decimal syntax above, and a value that fits a
    two's-complement integer of `bitSize` bits. Go distinguishes a syntax error from a range
    error; every caller in the model only asks whether there was an error, so both are None.
  */
  function ParseInt(s: string, bitSize: nat): (r: Option<int>)
    requires 0 < bitSize <= 64
    ensures r.Some? <==> ParseDecimal(s).Some? && -Pow2(bitSize - 1) <= ParseDecimal(s).value < Pow2(bitSize - 1)
    ensures r.Some? ==> r == ParseDecimal(s)
  {
    match ParseDecimal(s)
    case None => None
    case Some(v) => if -Pow2(bitSize - 1) <= v < Pow2(bitSize - 1) then Some(v) else None
  }

  /** `strconv.Atoi` on a 64-bit platform: ParseInt with bitSize 64. */
  function Atoi(s: string): Option<int> {
    ParseInt(s, 64)
  }

  lemma ParseIntAcceptsFormattedInRange(i: int, bitSize: nat)
    requires 0 < bitSize <= 64
    requires -Pow2(bitSize - 1) <= i < Pow2(bitSize - 1)
    ensures ParseInt(FormatInt(i), bitSize) == Some(i)
  {
    ParseFormatInt(i);
  }

  lemma EmptyIsNotAnInteger(bitSize: nat)
    requires 0 < bitSize <= 64
    ensures ParseInt("", bitSize) == None
  {
  }
}
