/** Decimal rendering and parsing of integers, as Java's string concatenation
    (Integer.toString) and Integer.parseInt do it. Rendering only ever produces the
    ASCII digits; parsing accepts every decimal digit Character.digit knows, that is
    the Unicode decimal digits (general category Nd) of the Basic Multilingual Plane.
    Java scans a string one UTF-16 unit at a time, so a digit outside that plane
    arrives as two surrogates, which are not digits, and is refused here as well.
    The pending-claim record and every cache key are built from these. */
module Decimal {
  import opened Common

  predicate IsDigit(c: char) {
    '0' <= c <= '9'
  }

  predicate AllDigits(s: string) {
    forall i :: 0 <= i < |s| ==> IsDigit(s[i])
  }

  function DigitChar(d: int): (c: char)
    requires 0 <= d < 10
    ensures IsDigit(c)
  {
    ('0' as int + d) as char
  }

  function DigitValue(c: char): (d: int)
    requires IsDigit(c)
    ensures 0 <= d < 10
  {
    c as int - '0' as int
  }

  /** The decimal digits of n, most significant first, without leading zeros. */
  function DigitsOf(n: nat): (s: string)
    ensures |s| > 0 && AllDigits(s)
    ensures n >= 10 ==> s[0] != '0'
  {
    if n < 10 then [DigitChar(n)] else DigitsOf(n / 10) + [DigitChar(n % 10)]
  }

  /** Integer.toString: a minus sign for negative values, then the digits. */
  function IntToString(x: int): string {
    if x < 0 then "-" + DigitsOf(-x) else DigitsOf(x)
  }

  /** The value of a string of decimal digits. */
  function ValueOf(s: string): nat
    requires AllDigits(s)
  {
    if |s| == 0 then 0 else ValueOf(s[..|s| - 1]) * 10 + DigitValue(s[|s| - 1])
  }

  /** The Unicode decimal digits (general category Nd) of the Basic Multilingual Plane
      come in 37 runs of ten, each holding the values 0 to 9 in code point order.
      DigitZero gives the first code point of the last run that starts at or below x,
      or -1 below the first run. */
  function DigitZero(x: int): (z: int)
    ensures z == -1 || (z >= '0' as int && z <= x)
    ensures '0' as int <= x <= '9' as int ==> z == '0' as int
  {
    if x >= 0xFF10 then 0xFF10
    else if x >= 0xABF0 then 0xABF0
    else if x >= 0xAA50 then 0xAA50
    else if x >= 0xA9F0 then 0xA9F0
    else if x >= 0xA9D0 then 0xA9D0
    else if x >= 0xA900 then 0xA900
    else if x >= 0xA8D0 then 0xA8D0
    else if x >= 0xA620 then 0xA620
    else if x >= 0x1C50 then 0x1C50
    else if x >= 0x1C40 then 0x1C40
    else if x >= 0x1BB0 then 0x1BB0
    else if x >= 0x1B50 then 0x1B50
    else if x >= 0x1A90 then 0x1A90
    else if x >= 0x1A80 then 0x1A80
    else if x >= 0x19D0 then 0x19D0
    else if x >= 0x1946 then 0x1946
    else if x >= 0x1810 then 0x1810
    else if x >= 0x17E0 then 0x17E0
    else if x >= 0x1090 then 0x1090
    else if x >= 0x1040 then 0x1040
    else if x >= 0x0F20 then 0x0F20
    else if x >= 0x0ED0 then 0x0ED0
    else if x >= 0x0E50 then 0x0E50
    else if x >= 0x0DE6 then 0x0DE6
    else if x >= 0x0D66 then 0x0D66
    else if x >= 0x0CE6 then 0x0CE6
    else if x >= 0x0C66 then 0x0C66
    else if x >= 0x0BE6 then 0x0BE6
    else if x >= 0x0B66 then 0x0B66
    else if x >= 0x0AE6 then 0x0AE6
    else if x >= 0x0A66 then 0x0A66
    else if x >= 0x09E6 then 0x09E6
    else if x >= 0x0966 then 0x0966
    else if x >= 0x07C0 then 0x07C0
    else if x >= 0x06F0 then 0x06F0
    else if x >= 0x0660 then 0x0660
    else if x >= 0x0030 then 0x0030
    else -1
  }

  /** Character.digit(c, 10): the digit's value, or None for the -1 it returns. */
  function DecimalDigit(c: char): (r: Option<int>)
    ensures r.Some? ==> 0 <= r.value < 10
    ensures c < '0' ==> r.None?
    ensures IsDigit(c) ==> r == Some(DigitValue(c))
  {
    var z := DigitZero(c as int);
    if z >= 0 && c as int < z + 10 then Some(c as int - z) else None
  }

  predicate AllDecimal(s: string) {
    forall i :: 0 <= i < |s| ==> DecimalDigit(s[i]).Some?
  }

  /** The value of a string of decimal digits of any script, as parseInt accumulates it. */
  function DecimalValue(s: string): nat
    requires AllDecimal(s)
  {
    if |s| == 0 then 0 else DecimalValue(s[..|s| - 1]) * 10 + DecimalDigit(s[|s| - 1]).value
  }

  /** Integer.parseInt(s) in radix 10: an optional leading '+' or '-', at least one
      decimal digit, nothing else, and a value inside the Integer range; None stands
      for the NumberFormatException. */
  function ParseInt(s: string): (r: Option<int>)
    ensures r.Some? ==> InInt32(r.value)
    ensures r.Some? ==> |s| > 0 && (DecimalDigit(s[0]).Some? || s[0] == '-' || s[0] == '+')
    ensures r.Some? && s[0] == '-' ==> |s| > 1 && AllDecimal(s[1..]) && r.value == 0 - DecimalValue(s[1..]) as int
    ensures r.Some? && s[0] == '+' ==> |s| > 1 && AllDecimal(s[1..]) && r.value == DecimalValue(s[1..])
    ensures r.Some? && s[0] != '-' && s[0] != '+' ==> AllDecimal(s) && r.value == DecimalValue(s)
    ensures |s| > 0 && AllDecimal(s) && InInt32(DecimalValue(s)) ==> r == Some(DecimalValue(s))
  {
    if |s| == 0 then None
    else
      var digits := if s[0] == '-' || s[0] == '+' then s[1..] else s;
      if |digits| == 0 || !AllDecimal(digits) then None
      else
        var v: int := if s[0] == '-' then 0 - DecimalValue(digits) as int else DecimalValue(digits) as int;
        if InInt32(v) then Some(v) else None
  }

  /** On ASCII digits the general value is the familiar one. */
  lemma {:induction false} DecimalValueOfAscii(s: string)
    requires AllDigits(s)
    ensures AllDecimal(s) && DecimalValue(s) == ValueOf(s)
  {
    forall i | 0 <= i < |s|
      ensures DecimalDigit(s[i]).Some?
    {
      assert IsDigit(s[i]);
    }
    if |s| > 0 {
      DecimalValueOfAscii(s[..|s| - 1]);
    }
  }

  /** Digits of other scripts parse too: Arabic-Indic four and two make 42, fullwidth
      zero and seven make 7, a minus sign before Devanagari one makes -1. */
  lemma ParseIntOtherScripts()
    ensures ParseInt("\U{0664}\U{0662}") == Some(42)
    ensures ParseInt("\U{FF10}\U{FF17}") == Some(7)
    ensures ParseInt("-\U{0967}") == Some(-1)
  {
    assert DecimalDigit('\U{0664}') == Some(4);
    assert DecimalDigit('\U{0662}') == Some(2);
    assert DecimalValue("\U{0664}\U{0662}"[..1]) == 4;
    assert DecimalDigit('\U{FF10}') == Some(0);
    assert DecimalDigit('\U{FF17}') == Some(7);
    assert DecimalValue("\U{FF10}\U{FF17}"[..1]) == 0;
    assert DecimalDigit('\U{0967}') == Some(1);
    assert DecimalValue("-\U{0967}"[1..]) == 1;
  }

  lemma {:induction false} ValueOfDigitsOf(n: nat)
    ensures ValueOf(DigitsOf(n)) == n
  {
    if n >= 10 {
      var s := DigitsOf(n);
      assert s[..|s| - 1] == DigitsOf(n / 10);
      ValueOfDigitsOf(n / 10);
    }
  }

  /** The rendering never contains a ':', and its first character tells the sign. */
  lemma IntToStringNoColon(x: int)
    ensures ':' !in IntToString(x)
    ensures |IntToString(x)| > 0
    ensures IsDigit(IntToString(x)[0]) || IntToString(x)[0] == '-'
    ensures IntToString(x)[0] == '-' <==> x < 0
  {
    var d := DigitsOf(if x < 0 then -x else x);
    assert forall i :: 0 <= i < |d| ==> d[i] != ':';
  }

  /** Parsing what Integer.toString printed gives the integer back. */
  lemma ParseIntToString(x: int)
    requires InInt32(x)
    ensures ParseInt(IntToString(x)) == Some(x)
  {
    var n: nat := if x < 0 then -x else x;
    ValueOfDigitsOf(n);
    DecimalValueOfAscii(DigitsOf(n));
    var s := IntToString(x);
    if x < 0 {
      assert s[1..] == DigitsOf(n);
    } else {
      assert IsDigit(s[0]);
    }
  }

  /** Distinct integers print differently, whatever their size. */
  lemma IntToStringInjective(x: int, y: int)
    requires IntToString(x) == IntToString(y)
    ensures x == y
  {
    IntToStringNoColon(x);
    IntToStringNoColon(y);
    assert (x < 0) == (y < 0);
    var n: nat, m: nat := if x < 0 then -x else x, if y < 0 then -y else y;
    if x < 0 {
      assert DigitsOf(n) == IntToString(x)[1..];
      assert DigitsOf(m) == IntToString(y)[1..];
    }
    assert DigitsOf(n) == DigitsOf(m);
    ValueOfDigitsOf(n);
    ValueOfDigitsOf(m);
  }
}
