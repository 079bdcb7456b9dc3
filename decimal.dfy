/** Decimal text as `std::to_chars` writes it and `std::from_chars` reads it. */
module Decimal {
  import opened Shared

  predicate IsDigit(c: char) { '0' <= c <= '9' }

  predicate IsDigits(s: string) { forall i :: 0 <= i < |s| ==> IsDigit(s[i]) }

  function DigitChar(d: nat): (c: char)
    requires d < 10
    ensures IsDigit(c)
  {
    ('0' as int + d) as char
  }

  function DigitValue(c: char): (d: nat)
    requires IsDigit(c)
    ensures d < 10 && DigitChar(d) == c
  {
    c as int - '0' as int
  }

  function Pow10(k: nat): (p: nat)
    ensures p >= 1
  {
    if k == 0 then 1 else 10 * Pow10(k - 1)
  }

  lemma {:induction false} Pow10Add(a: nat, b: nat)
    ensures Pow10(a + b) == Pow10(a) * Pow10(b)
    decreases a
  {
    if a > 0 {
      Pow10Add(a - 1, b);
      assert Pow10(a + b) == 10 * Pow10(a - 1 + b);
    }
  }

  /** The minimal decimal rendering of `n`: what `to_chars` writes for an unsigned value. */
  function Digits(n: nat): (r: string)
    ensures 1 <= |r| && IsDigits(r)
    ensures r[0] == '0' ==> n == 0 && r == "0"
    decreases n
  {
    if n < 10 then [DigitChar(n)] else Digits(n / 10) + [DigitChar(n % 10)]
  }

  /** The value a string of digits denotes, read most significant digit first. */
  function DecimalValue(s: string): nat
    requires IsDigits(s)
  {
    if s == [] then 0 else DecimalValue(s[..|s| - 1]) * 10 + DigitValue(s[|s| - 1])
  }

  /** Reading back what `Digits` wrote gives the number. */
  lemma {:induction false} DigitsRoundTrip(n: nat)
    ensures DecimalValue(Digits(n)) == n
    decreases n
  {
    if n >= 10 {
      var d := Digits(n / 10);
      DigitsRoundTrip(n / 10);
      assert (d + [DigitChar(n % 10)])[..|d|] == d;
    }
  }

  lemma {:induction false} LeadingNonZeroPositive(s: string)
    requires IsDigits(s) && |s| >= 1 && s[0] != '0'
    ensures DecimalValue(s) >= 1
    decreases |s|
  {
    if |s| > 1 {
      LeadingNonZeroPositive(s[..|s| - 1]);
    } else {
      assert DigitChar(DigitValue(s[0])) == s[0];
    }
  }

  /** Every digit string without a redundant leading zero is the rendering of its value,
      so `Digits` is a bijection onto those strings. */
  lemma {:induction false} CanonicalDigits(s: string)
    requires IsDigits(s) && |s| >= 1 && (s[0] == '0' ==> |s| == 1)
    ensures Digits(DecimalValue(s)) == s
    decreases |s|
  {
    if |s| > 1 {
      var t := s[..|s| - 1];
      var c := s[|s| - 1];
      LeadingNonZeroPositive(t);
      CanonicalDigits(t);
      var v := DecimalValue(s);
      assert v == DecimalValue(t) * 10 + DigitValue(c);
      assert v / 10 == DecimalValue(t) && v % 10 == DigitValue(c);
      assert s == t + [c];
    }
  }

  /** `to_chars` into a field of `k` bytes succeeds exactly when the value is below 10^k. */
  lemma {:induction false} DigitsLength(n: nat, k: nat)
    requires k >= 1
    ensures |Digits(n)| <= k <==> n < Pow10(k)
    decreases n
  {
    if n >= 10 {
      assert |Digits(n)| == |Digits(n / 10)| + 1;
      if k == 1 {
        assert Pow10(1) == 10;
      } else {
        DigitsLength(n / 10, k - 1);
        assert n / 10 < Pow10(k - 1) <==> n < 10 * Pow10(k - 1);
      }
    } else {
      assert Pow10(k) == 10 * Pow10(k - 1);
    }
  }

  /** Length of the longest prefix of `s` made of digits. */
  function DigitPrefixLength(s: string): (k: nat)
    ensures k <= |s| && IsDigits(s[..k])
    ensures k < |s| ==> !IsDigit(s[k])
    decreases |s|
  {
    if s == [] || !IsDigit(s[0]) then 0
    else
      var k := 1 + DigitPrefixLength(s[1..]);
      assert s[..k] == [s[0]] + s[1..][..k - 1];
      k
  }

  /** `std::from_chars` of `s` into a `size_t` that starts at 0: the value of the leading
      digits, or 0 when there are none (invalid argument) or they do not fit in 64 bits
      (out of range), since on both errors the target is left untouched. */
  function FromChars(s: string): (r: nat)
    ensures r < Size64
    ensures DigitPrefixLength(s) == 0 ==> r == 0
  {
    var k := DigitPrefixLength(s);
    if k == 0 then 0
    else
      var v := DecimalValue(s[..k]);
      if v < Size64 then v else 0
  }

  /** Digits followed by a non-digit (or nothing) read back as the number. */
  lemma FromCharsDigits(n: nat, rest: string)
    requires n < Size64
    requires rest == [] || !IsDigit(rest[0])
    ensures FromChars(Digits(n) + rest) == n
  {
    var s := Digits(n) + rest;
    DigitPrefixOf(Digits(n), rest);
    assert s[..|Digits(n)|] == Digits(n);
    DigitsRoundTrip(n);
  }

  lemma {:induction false} DigitPrefixOf(d: string, rest: string)
    requires IsDigits(d)
    requires rest == [] || !IsDigit(rest[0])
    ensures DigitPrefixLength(d + rest) == |d|
    decreases |d|
  {
    if d != [] {
      assert (d + rest)[1..] == d[1..] + rest;
      DigitPrefixOf(d[1..], rest);
    } else {
      assert d + rest == rest;
    }
  }

  /** What `to_chars` writes for a signed (int64) value: a minus sign, then the digits
      of the magnitude. */
  function IntText(i: int): (r: string)
    ensures |r| >= 1
    ensures r[0] == '-' <==> i < 0
    ensures if r[0] == '-' then IsDigits(r[1..]) else IsDigits(r)
  {
    if i < 0 then
      assert ("-" + Digits(-i))[1..] == Digits(-i);
      "-" + Digits(-i)
    else Digits(i)
  }

  /** Reads an optional minus sign followed by digits. */
  function SignedValue(s: string): (v: int)
    requires s != [] && (if s[0] == '-' then IsDigits(s[1..]) else IsDigits(s))
  {
    if s[0] == '-' then 0 - DecimalValue(s[1..]) else DecimalValue(s)
  }

  /** Integer ids round-trip through their canonical text. */
  lemma IntTextRoundTrip(i: int)
    ensures SignedValue(IntText(i)) == i
  {
    if i < 0 {
      assert ("-" + Digits(-i))[1..] == Digits(-i);
      DigitsRoundTrip(-i);
    } else {
      DigitsRoundTrip(i);
    }
  }
}
