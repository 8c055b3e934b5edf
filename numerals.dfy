/**
 * Decimal numerals as the C library writes them for the `d` conversion, and
 * the inverse reading. `FormatD(n, w)` is `%0<w>d` (section 7.21.6.1 of
 * ISO/IEC 9899:2011): the sign, then zeros up to the minimum field width,
 * then every digit of the value, never truncated.
 */
module Numerals {
  import opened Wrappers

  predicate IsDigit(c: char) {
    '0' <= c <= '9'
  }

  predicate AllDigits(s: string) {
    forall i :: 0 <= i < |s| ==> IsDigit(s[i])
  }

  function DigitChar(d: nat): (c: char)
    requires d < 10
    ensures IsDigit(c) && DigitValue(c) == d
  {
    ('0' as int + d) as char
  }

  function DigitValue(c: char): (d: nat)
    requires IsDigit(c)
    ensures d < 10
  {
    c as int - '0' as int
  }

  function Abs(n: int): nat {
    if n < 0 then -n else n
  }

  function Pow10(k: nat): (p: nat)
    ensures p >= 1
  {
    if k == 0 then 1 else 10 * Pow10(k - 1)
  }

  /** The numeral of `n`, most significant digit first, without leading zeros. */
  function Digits(n: nat): (s: string)
    ensures 1 <= |s| && AllDigits(s)
    ensures s[0] == '0' ==> n == 0
  {
    if n < 10 then [DigitChar(n)] else Digits(n / 10) + [DigitChar(n % 10)]
  }

  /** The value of a string of digits read most significant first. */
  function ValueOf(s: string): nat
    requires AllDigits(s)
  {
    if s == [] then 0 else ValueOf(s[..|s| - 1]) * 10 + DigitValue(s[|s| - 1])
  }

  function Zeros(k: nat): (s: string)
    ensures |s| == k && AllDigits(s)
  {
    seq(k, _ => '0')
  }

  function Sign(n: int): string {
    if n < 0 then "-" else ""
  }

  /** How many zeros `%0<width>d` puts between the sign and the digits to reach the field width. */
  function PadLength(n: int, width: nat): nat {
    var used := |Sign(n)| + |Digits(Abs(n))|;
    if used < width then width - used else 0
  }

  /** `%0<width>d`: the result is at least `width` characters and ends with the whole numeral of |n|. */
  function FormatD(n: int, width: nat): (s: string)
    ensures |s| >= width && |s| >= |Digits(Abs(n))|
    ensures s[|s| - |Digits(Abs(n))|..] == Digits(Abs(n))
    ensures (n < 0) <==> (s[0] == '-')
  {
    Sign(n) + Zeros(PadLength(n, width)) + Digits(Abs(n))
  }

  /** Reads an optional minus sign followed by one or more digits, and nothing else. */
  function ParseD(s: string): Option<int> {
    if |s| > 0 && s[0] == '-' then
      if |s| > 1 && AllDigits(s[1..]) then Some(-(ValueOf(s[1..]) as int)) else None
    else if |s| > 0 && AllDigits(s) then Some(ValueOf(s))
    else None
  }

  /** The number of leading digits of `s`. */
  function DigitRun(s: string): (k: nat)
    ensures k <= |s| && AllDigits(s[..k])
    ensures k < |s| ==> !IsDigit(s[k])
  {
    if s == [] || !IsDigit(s[0]) then 0 else 1 + DigitRun(s[1..])
  }

  /** The length of the longest prefix of `s` shaped like a numeral: an optional `-` and digits. */
  function NumeralLength(s: string): (k: nat)
    ensures k <= |s|
  {
    if |s| > 0 && s[0] == '-' then 1 + DigitRun(s[1..]) else DigitRun(s)
  }

  lemma {:induction false} ValueOfDigits(n: nat)
    ensures ValueOf(Digits(n)) == n
  {
    if n >= 10 {
      var s := Digits(n);
      assert s[..|s| - 1] == Digits(n / 10);
      ValueOfDigits(n / 10);
    }
  }

  lemma {:induction false} ValueOfLeadingZeros(k: nat, s: string)
    requires AllDigits(s)
    ensures ValueOf(Zeros(k) + s) == ValueOf(s)
  {
    if s == [] {
      assert Zeros(k) + s == Zeros(k);
      ZerosValue(k);
    } else {
      var t := Zeros(k) + s;
      assert t[..|t| - 1] == Zeros(k) + s[..|s| - 1];
      ValueOfLeadingZeros(k, s[..|s| - 1]);
    }
  }

  lemma {:induction false} ZerosValue(k: nat)
    ensures ValueOf(Zeros(k)) == 0
  {
    if k > 0 {
      assert Zeros(k)[..k - 1] == Zeros(k - 1);
      ZerosValue(k - 1);
    }
  }

  /** Reading back what `%0<width>d` wrote gives the number that was written. */
  lemma ParseFormatD(n: int, width: nat)
    ensures ParseD(FormatD(n, width)) == Some(n)
  {
    var digits := Digits(Abs(n));
    var body := Zeros(PadLength(n, width)) + digits;
    assert FormatD(n, width) == Sign(n) + body;
    AllDigitsConcat(Zeros(PadLength(n, width)), digits);
    ValueOfDigits(Abs(n));
    ValueOfLeadingZeros(PadLength(n, width), digits);
    if n < 0 {
      ParseNegative(body);
    } else {
      assert FormatD(n, width) == body;
      ParseNonNegative(body);
    }
  }

  lemma AllDigitsConcat(a: string, b: string)
    requires AllDigits(a) && AllDigits(b)
    ensures AllDigits(a + b)
  {
  }

  lemma ParseNegative(body: string)
    requires body != [] && AllDigits(body)
    ensures ParseD("-" + body) == Some(-(ValueOf(body) as int))
  {
    assert ("-" + body)[1..] == body;
  }

  lemma ParseNonNegative(body: string)
    requires body != [] && AllDigits(body)
    ensures ParseD(body) == Some(ValueOf(body) as int)
  {
  }

  /** A digit string followed by a non-digit has exactly its own length as digit run. */
  lemma {:induction false} DigitRunStopsAt(d: string, t: string)
    requires AllDigits(d)
    requires t != [] && !IsDigit(t[0])
    ensures DigitRun(d + t) == |d|
  {
    if d != [] {
      assert (d + t)[1..] == d[1..] + t;
      DigitRunStopsAt(d[1..], t);
    }
  }

  /** The numeral that `%0<width>d` wrote is exactly the numeral-shaped prefix when a non-digit follows it. */
  lemma NumeralLengthOfFormatD(n: int, width: nat, t: string)
    requires t != [] && !IsDigit(t[0])
    ensures NumeralLength(FormatD(n, width) + t) == |FormatD(n, width)|
  {
    var s := FormatD(n, width);
    if n < 0 {
      assert (s + t)[1..] == s[1..] + t;
      DigitRunStopsAt(s[1..], t);
    } else {
      assert (s + t)[0] == s[0];
      DigitRunStopsAt(s, t);
    }
  }

  /** A numeral of |n| < 10^k has at most k digits. */
  lemma {:induction false} DigitsLength(n: nat, k: nat)
    requires 1 <= k && n < Pow10(k)
    ensures |Digits(n)| <= k
  {
    if n >= 10 {
      DigitsLength(n / 10, k - 1);
    }
  }

  /** When |n| < 10^k and k >= width, `%0<width>d` takes at most k characters, plus one for a minus sign. */
  lemma FormatDLength(n: int, width: nat, k: nat)
    requires Abs(n) < Pow10(k) && 1 <= k && width <= k
    ensures |FormatD(n, width)| <= k + (if n < 0 then 1 else 0)
  {
    DigitsLength(Abs(n), k);
  }
}
