/**
 * Decimal integers as text: Go's strconv.Itoa, which GetRangeNotes uses to put the
 * offset and limit into its SQL (internals/storage/postgreStorage.go:69,74), and
 * strconv.ParseInt(s, 10, 32), which ListRange uses to read its query parameters
 * (internals/handlers/handlers.go:61,64).
 */
module Decimal {
  import opened Wrappers

  const MinInt32: int := -0x8000_0000
  const MaxInt32: int := 0x7fff_ffff

  predicate IsDigit(c: char)
  {
    '0' <= c <= '9'
  }

  predicate AllDigits(s: string)
  {
    forall i :: 0 <= i < |s| ==> IsDigit(s[i])
  }

  function DigitChar(d: int): (c: char)
    requires 0 <= d < 10
    ensures IsDigit(c) && c as int - '0' as int == d
  {
    ('0' as int + d) as char
  }

  /** The value of a string of decimal digits (any number of leading zeros allowed). */
  function DigitsValue(s: string): nat
    requires AllDigits(s)
    decreases |s|
  {
    if s == [] then 0
    else DigitsValue(s[..|s| - 1]) * 10 + (s[|s| - 1] as int - '0' as int)
  }

  /** The shortest decimal spelling of a natural number. */
  function FormatNat(n: nat): (s: string)
    ensures |s| >= 1 && AllDigits(s)
    ensures s[0] == '0' ==> n == 0 && s == "0"
    decreases n
  {
    if n < 10 then [DigitChar(n)] else FormatNat(n / 10) + [DigitChar(n % 10)]
  }

  /** strconv.Itoa: a leading '-' for negative numbers, then the digits. */
  function Itoa(n: int): (s: string)
    ensures |s| >= 1
    ensures (s[0] == '-') == (n < 0)
    ensures n >= 0 ==> AllDigits(s)
  {
    if n < 0 then "-" + FormatNat(-n) else FormatNat(n)
  }

  /** Reading back what FormatNat wrote gives the number. */
  lemma {:induction false} DigitsValueFormatNat(n: nat)
    ensures DigitsValue(FormatNat(n)) == n
    decreases n
  {
    if n >= 10 {
      var s := FormatNat(n);
      assert s[..|s| - 1] == FormatNat(n / 10);
      DigitsValueFormatNat(n / 10);
    }
  }

  /**
   * A decimal integer of any size: an optional '+' or '-', then at least one digit,
   * and nothing else.
   */
  function ParseDecimal(s: string): (r: Option<int>)
    ensures s != [] && AllDigits(s) ==> r == Some(DigitsValue(s))
    ensures s != [] && !IsDigit(s[0]) && s[0] != '+' && s[0] != '-' ==> r == None
    ensures (exists i :: 0 < i < |s| && !IsDigit(s[i])) ==> r == None
    ensures |s| >= 2 && (s[0] == '+' || s[0] == '-') && AllDigits(s[1..]) ==>
              r == Some(if s[0] == '-' then 0 - (DigitsValue(s[1..]) as int) else DigitsValue(s[1..]) as int)
    ensures s == "+" || s == "-" ==> r == None
    ensures r.Some? ==> |s| >= 1
  {
    if s == [] then None
    else
      var negative := s[0] == '-';
      var digits := if s[0] == '+' || s[0] == '-' then s[1..] else s;
      if digits == [] || !AllDigits(digits) then None
      else
        var magnitude: int := DigitsValue(digits);
        Some(if negative then -magnitude else magnitude)
  }

  /** strconv.ParseInt(s, 10, 32) without its error: a syntax or range error gives None. */
  function ParseInt32(s: string): (r: Option<int>)
    ensures r.Some? ==> MinInt32 <= r.value <= MaxInt32
    ensures r.Some? ==> ParseDecimal(s) == r
    ensures ParseDecimal(s).Some? && MinInt32 <= ParseDecimal(s).value <= MaxInt32 ==> r == ParseDecimal(s)
  {
    match ParseDecimal(s)
    case Some(v) => if MinInt32 <= v <= MaxInt32 then Some(v) else None
    case None => None
  }

  /** Itoa and ParseDecimal are inverse: every integer survives the round trip. */
  lemma ParseDecimalItoa(n: int)
    ensures ParseDecimal(Itoa(n)) == Some(n)
  {
    var s := Itoa(n);
    if n < 0 {
      var digits := FormatNat(-n);
      assert s[0] == '-' && s[1..] == digits;
      DigitsValueFormatNat(-n);
      assert ParseDecimal(s) == Some(0 - DigitsValue(digits));
    } else {
      assert IsDigit(s[0]);
      DigitsValueFormatNat(n);
      assert ParseDecimal(s) == Some(DigitsValue(s));
    }
  }

  /** ParseInt32 reads back exactly the integers that fit in 32 bits. */
  lemma ParseInt32Itoa(n: int)
    ensures ParseInt32(Itoa(n)) == if MinInt32 <= n <= MaxInt32 then Some(n) else None
  {
    ParseDecimalItoa(n);
  }

  /** A missing query parameter reads as "", which is a syntax error. */
  lemma ParseInt32Empty()
    ensures ParseInt32("") == None
  {
  }
}
