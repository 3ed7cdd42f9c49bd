/**
  The decimal integers of the catalog's text fields: `strconv.ParseInt(s, 10, 32)`
  as the decoders in def.go call it, and the canonical rendering it inverts.
 */
module Decimal {
  import opened Results

  const MinInt32: int := -0x8000_0000
  const MaxInt32: int := 0x7fff_ffff

  predicate IsDigit(c: char) {
    '0' <= c <= '9'
  }

  predicate AllDigits(s: string) {
    forall i :: 0 <= i < |s| ==> IsDigit(s[i])
  }

  /** The value of a run of decimal digits, most significant digit first. */
  function DigitsValue(s: string): nat
    requires AllDigits(s)
  {
    if |s| == 0 then 0
    else DigitsValue(s[..|s| - 1]) * 10 + (s[|s| - 1] as int - '0' as int)
  }

  /**
    `strconv.ParseInt(s, 10, 32)`: an optional leading '+' or '-', then one or
    more decimal digits and nothing else, with a value in the int32 range.
    `None` stands for both the syntax and the range error.
   */
  function ParseInt32(s: string): (r: Option<int>)
    ensures r.Some? ==> MinInt32 <= r.value <= MaxInt32
    ensures r.Some? ==> |s| > 0 && forall i :: 0 < i < |s| ==> IsDigit(s[i])
    ensures r.Some? ==> IsDigit(s[0]) || ((s[0] == '+' || s[0] == '-') && |s| > 1)
    ensures r.Some? && IsDigit(s[0]) ==> AllDigits(s) && r.value == DigitsValue(s)
    ensures r.Some? && s[0] == '+' ==> AllDigits(s[1..]) && r.value == DigitsValue(s[1..])
    ensures r.Some? && s[0] == '-' ==> AllDigits(s[1..]) && r.value == -(DigitsValue(s[1..]) as int)
    ensures |s| > 0 && AllDigits(s) && DigitsValue(s) <= MaxInt32 ==> r == Some(DigitsValue(s))
    ensures |s| > 1 && s[0] == '+' && AllDigits(s[1..]) && DigitsValue(s[1..]) <= MaxInt32
      ==> r == Some(DigitsValue(s[1..]))
    ensures |s| > 1 && s[0] == '-' && AllDigits(s[1..]) && DigitsValue(s[1..]) <= -MinInt32
      ==> r == Some(-(DigitsValue(s[1..]) as int))
  {
    if |s| == 0 then None
    else
      var negative := s[0] == '-';
      var digits := if s[0] == '+' || s[0] == '-' then s[1..] else s;
      if |digits| == 0 || !AllDigits(digits) then None
      else
        var magnitude: int := DigitsValue(digits);
        var v := if negative then -magnitude else magnitude;
        if MinInt32 <= v <= MaxInt32 then Some(v) else None
  }

  /** Leading zeros, an explicit '+' and a signed zero are accepted; a lone sign is not. */
  lemma ParseInt32Examples()
    ensures ParseInt32("+007") == Some(7)
    ensures ParseInt32("-0") == Some(0)
    ensures ParseInt32("+") == None
  {
    assert "+007"[1..] == "007" && "007"[..2] == "00" && "00"[..1] == "0";
    assert DigitsValue("0") == 0 && DigitsValue("00") == 0 && DigitsValue("007") == 7;
    assert "-0"[1..] == "0";
  }

  /** The canonical decimal rendering of a natural number: digits only, no leading zero. */
  function FormatNat(n: nat): (s: string)
    ensures |s| > 0 && AllDigits(s)
    ensures DigitsValue(s) == n
    ensures s[0] == '0' ==> n == 0
  {
    var last := ['0' + (n % 10) as char];
    if n < 10 then last
    else
      var s := FormatNat(n / 10) + last;
      assert s[..|s| - 1] == FormatNat(n / 10);
      s
  }

  /** The rendering `fmt.Sprint` gives an integer: a '-' before a negative value. */
  function FormatInt(v: int): string {
    if v < 0 then "-" + FormatNat(-v) else FormatNat(v)
  }

  /** Every int32 survives rendering and re-parsing. */
  lemma ParseFormatRoundTrip(v: int)
    requires MinInt32 <= v <= MaxInt32
    ensures ParseInt32(FormatInt(v)) == Some(v)
  {
    var s := FormatInt(v);
    if v < 0 {
      assert s[1..] == FormatNat(-v);
    }
  }

  /**
    Every magnitude in range parses with either explicit sign, down to
    -2^31, and the first magnitude past the int32 range does not parse.
   */
  lemma ParseInt32Signed(n: nat)
    ensures n <= MaxInt32 ==> ParseInt32("+" + FormatNat(n)) == Some(n)
    ensures n <= -MinInt32 ==> ParseInt32("-" + FormatNat(n)) == Some(-(n as int))
    ensures n > MaxInt32 ==> ParseInt32(FormatNat(n)) == None
  {
    assert ("+" + FormatNat(n))[1..] == FormatNat(n);
    assert ("-" + FormatNat(n))[1..] == FormatNat(n);
  }

  /** A decimal rendering never contains a separator or sign character. */
  lemma FormatIntAvoids(v: int, c: char)
    requires !IsDigit(c) && c != '-'
    ensures c !in FormatInt(v)
  {
    if v < 0 {
      assert FormatInt(v) == ['-'] + FormatNat(-v);
    }
  }
}
