/** Decimal digits: reading them (`int(...)`, `strptime`'s numeric fields) and writing them (`str`, `isoformat`). */
module Digits {
  import opened Text
  import opened Wrappers
  import opened Errors

  predicate AllDigits(s: string) { forall i :: 0 <= i < |s| ==> IsDigit(s[i]) }

  function DigitValue(c: char): (d: nat)
    requires IsDigit(c)
    ensures d < 10
  {
    c as int - '0' as int
  }

  function DigitChar(d: nat): (c: char)
    requires d < 10
    ensures IsDigit(c) && DigitValue(c) == d
  {
    ('0' as int + d) as char
  }

  /** The value of a string of decimal digits, most significant digit first. */
  function DigitsValue(s: string): nat
    requires AllDigits(s)
  {
    if s == [] then 0 else DigitsValue(s[..|s| - 1]) * 10 + DigitValue(s[|s| - 1])
  }

  /** `str(n)` for a natural number: its decimal digits without leading zeros. */
  function NatToString(n: nat): (s: string)
    ensures s != [] && AllDigits(s)
  {
    if n < 10 then [DigitChar(n)] else NatToString(n / 10) + [DigitChar(n % 10)]
  }

  lemma {:induction false} NatToStringValue(n: nat)
    ensures DigitsValue(NatToString(n)) == n
  {
    if n >= 10 {
      var s := NatToString(n);
      assert s[..|s| - 1] == NatToString(n / 10);
      NatToStringValue(n / 10);
    }
  }

  function Pow10(k: nat): (p: nat)
    ensures p >= 1
  {
    if k == 0 then 1 else 10 * Pow10(k - 1)
  }

  /** `n` written in exactly `width` digits with leading zeros (`%0<width>d`), keeping the last `width` digits. */
  function PadDigits(n: nat, width: nat): (s: string)
    ensures |s| == width && AllDigits(s)
  {
    if width == 0 then [] else PadDigits(n / 10, width - 1) + [DigitChar(n % 10)]
  }

  lemma {:induction false} PadDigitsValue(n: nat, width: nat)
    requires n < Pow10(width)
    ensures DigitsValue(PadDigits(n, width)) == n
  {
    if width > 0 {
      var s := PadDigits(n, width);
      assert s[..|s| - 1] == PadDigits(n / 10, width - 1);
      PadDigitsValue(n / 10, width - 1);
    }
  }

  /** Text that Python's `int(text)` accepts in this model: an optional sign and at least one decimal digit. */
  predicate IsIntLiteral(s: string) {
    var body := if s != [] && (s[0] == '+' || s[0] == '-') then s[1..] else s;
    body != [] && AllDigits(body)
  }

  /** Python's `int(text)`: a decimal integer, or the `ValueError` it raises. */
  function ParseInt(s: string): (r: Result<int, Error>)
    ensures r.Ok? <==> IsIntLiteral(s)
    ensures r.Err? ==> r.error == InvalidLiteral(s)
    ensures r.Ok? && s[0] == '-' ==> r.value <= 0
    ensures r.Ok? && s[0] != '-' ==> r.value >= 0
  {
    var signed := s != [] && (s[0] == '+' || s[0] == '-');
    var body := if signed then s[1..] else s;
    if body != [] && AllDigits(body) then
      var v: int := DigitsValue(body);
      Ok(if s[0] == '-' then -v else v)
    else
      Err(InvalidLiteral(s))
  }

  /** `k` zero digits. */
  function Zeros(k: nat): (z: string)
    ensures |z| == k && AllDigits(z)
  {
    seq(k, _ => '0')
  }

  lemma {:induction false} ZerosValue(k: nat)
    ensures DigitsValue(Zeros(k)) == 0
  {
    if k > 0 {
      assert Zeros(k)[..k - 1] == Zeros(k - 1);
      ZerosValue(k - 1);
    }
  }

  /** Zeros in front of a digit string do not change its value. */
  lemma {:induction false} LeadingZerosValue(k: nat, t: string)
    requires AllDigits(t)
    ensures AllDigits(Zeros(k) + t) && DigitsValue(Zeros(k) + t) == DigitsValue(t)
    decreases |t|
  {
    var s := Zeros(k) + t;
    if t == [] {
      assert s == Zeros(k);
      ZerosValue(k);
    } else {
      assert s[..|s| - 1] == Zeros(k) + t[..|t| - 1];
      LeadingZerosValue(k, t[..|t| - 1]);
    }
  }

  /** `int` ignores leading zeros: `int("0750") == int("750")`. */
  lemma ParseIntLeadingZeros(k: nat, t: string)
    requires t != [] && AllDigits(t)
    ensures ParseInt(Zeros(k) + t) == ParseInt(t)
  {
    LeadingZerosValue(k, t);
    var s := Zeros(k) + t;
    assert IsDigit(s[0]) && IsDigit(t[0]);
  }

  /** A `+` sign in front of digits leaves the value alone: `int("+3") == int("3")`. */
  lemma ParseIntPlus(t: string)
    requires t != [] && AllDigits(t)
    ensures ParseInt("+" + t) == ParseInt(t)
  {
    assert ("+" + t)[1..] == t;
    assert IsDigit(t[0]);
  }

  /** A `-` sign in front of digits negates the value: `int("-0") == 0`. */
  lemma ParseIntMinus(t: string)
    requires t != [] && AllDigits(t)
    ensures ParseInt(t).Ok? && ParseInt("-" + t) == Ok(-ParseInt(t).value)
  {
    assert ("-" + t)[1..] == t;
    assert IsDigit(t[0]);
  }

  /** Literals that `str` never writes still read as Python reads them. */
  lemma UnusualLiterals()
    ensures ParseInt("0750") == Ok(750)
    ensures ParseInt("+3") == Ok(3)
    ensures ParseInt("-0") == Ok(0)
  {
    IntRoundTrip(750);
    assert IntToString(750) == "750" by {
      assert NatToString(750) == NatToString(75) + [DigitChar(0)];
    }
    assert "0750" == Zeros(1) + "750";
    ParseIntLeadingZeros(1, "750");
    IntRoundTrip(3);
    assert "+3" == "+" + "3";
    ParseIntPlus("3");
    IntRoundTrip(0);
    assert "-0" == "-" + "0";
    ParseIntMinus("0");
  }

  /** `str(n)` for any integer. */
  function IntToString(n: int): (s: string)
  {
    if n < 0 then "-" + NatToString(-n) else NatToString(n)
  }

  /** Every integer's decimal text reads back as that integer. */
  lemma IntRoundTrip(n: int)
    ensures ParseInt(IntToString(n)) == Ok(n)
  {
    var s := IntToString(n);
    if n < 0 {
      NatToStringValue(-n);
      assert s[0] == '-' && s[1..] == NatToString(-n);
    } else {
      NatToStringValue(n);
      assert IsDigit(s[0]);
    }
  }
}
