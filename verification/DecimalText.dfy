/** The text of a decimal on the 10^-8 grid, as `str` writes it, and reading it back. */
module DecimalText {
  import opened Wrappers
  import opened Decimals

  /** coefficient * 10^exponent */
  datatype Decimal = Decimal(coefficient: nat, exponent: int)
  {
    function Value(): real {
      if exponent >= 0 then (coefficient * Pow10(exponent)) as real
      else coefficient as real / Pow10(-exponent) as real
    }
  }

  const DIGITS := "0123456789"

  predicate IsDigit(c: char) {
    '0' <= c <= '9'
  }

  predicate AllDigits(s: string) {
    forall i | 0 <= i < |s| :: IsDigit(s[i])
  }

  function ToDigits(n: nat): (s: string)
    ensures AllDigits(s) && |s| >= 1
  {
    if n < 10 then [DIGITS[n]] else ToDigits(n / 10) + [DIGITS[n % 10]]
  }

  /** The number written by the first `k` digits. */
  function Leading(s: string, k: nat): nat
    requires AllDigits(s) && k <= |s|
  {
    if k == 0 then 0 else Leading(s, k - 1) * 10 + (s[k - 1] - '0') as int
  }

  function FromDigits(s: string): nat
    requires AllDigits(s)
  {
    Leading(s, |s|)
  }

  function Zeros(n: nat): (s: string)
    ensures |s| == n && AllDigits(s)
  {
    seq(n, i => '0')
  }

  /** The standard text of units * 10^-8: scientific below 10^-6, plain above. */
  function Format(units: nat): string {
    FormatDigits(ToDigits(units))
  }

  function FormatDigits(digits: string): string
    requires |digits| >= 1
  {
    var left := |digits| - 8;
    if left > -6 then
      if left <= 0 then "0." + Zeros(-left) + digits
      else digits[..left] + "." + digits[left..]
    else
      var exponent := ToDigits(1 - left);
      if |digits| == 1 then digits + "E-" + exponent
      else digits[..1] + "." + digits[1..] + "E-" + exponent
  }

  /** The first position of `c` at or after `from`, or the length of `s`. */
  function IndexFrom(s: string, c: char, from: nat): (i: nat)
    requires from <= |s|
    ensures from <= i <= |s| && (i < |s| ==> s[i] == c)
    ensures forall k | from <= k < i :: s[k] != c
    decreases |s| - from
  {
    if from == |s| || s[from] == c then from else IndexFrom(s, c, from + 1)
  }

  function ParseExponent(s: string): Option<int> {
    if s != "" && s[0] == '-' then
      if s != "-" && AllDigits(s[1..]) then Some(0 - FromDigits(s[1..])) else None
    else
      var t := if s != "" && s[0] == '+' then s[1..] else s;
      if t != "" && AllDigits(t) then Some(FromDigits(t)) else None
  }

  /** digits [ . digits ], to be multiplied by a power of ten. */
  function ParseMantissa(mantissa: string, exponent: int): Option<Decimal> {
    var dot := IndexFrom(mantissa, '.', 0);
    var fraction := if dot < |mantissa| then mantissa[dot + 1..] else "";
    var digits := mantissa[..dot] + fraction;
    if digits == "" || !AllDigits(digits) then None
    else Some(Decimal(FromDigits(digits), exponent - |fraction|))
  }

  /** mantissa [ E [ sign ] digits ] */
  function Parse(s: string): Option<Decimal> {
    var e := IndexFrom(s, 'E', 0);
    match (if e == |s| then Some(0) else ParseExponent(s[e + 1..]))
    case None => None
    case Some(exponent) => ParseMantissa(s[..e], exponent)
  }

  // ---------------------------------------------------------------- round trip

  lemma {:induction false} LeadingOfPrefix(s: string, t: string, k: nat)
    requires AllDigits(s) && AllDigits(t) && k <= |s| && k <= |t|
    requires forall i | 0 <= i < k :: s[i] == t[i]
    ensures Leading(s, k) == Leading(t, k)
  {
    if k > 0 {
      LeadingOfPrefix(s, t, k - 1);
    }
  }

  lemma {:induction false} DigitsRoundTrip(n: nat)
    ensures FromDigits(ToDigits(n)) == n
  {
    var s := ToDigits(n);
    if n < 10 {
      DigitValue(n);
      assert Leading(s, 1) == Leading(s, 0) * 10 + n;
    } else {
      DigitsRoundTrip(n / 10);
      LeadingOfPrefix(s, ToDigits(n / 10), |s| - 1);
      DigitValue(n % 10);
    }
  }

  lemma DigitValue(d: nat)
    requires d < 10
    ensures IsDigit(DIGITS[d]) && (DIGITS[d] - '0') as int == d
  {
  }

  lemma {:induction false} LeadingZeros(n: nat, s: string, k: nat)
    requires AllDigits(s) && k <= |s|
    ensures AllDigits(Zeros(n) + s) && Leading(Zeros(n) + s, n + k) == Leading(s, k)
  {
    if k > 0 {
      LeadingZeros(n, s, k - 1);
    } else {
      OnlyZeros(Zeros(n) + s, n);
    }
  }

  lemma {:induction false} OnlyZeros(s: string, n: nat)
    requires AllDigits(s) && n <= |s| && forall i | 0 <= i < n :: s[i] == '0'
    ensures Leading(s, n) == 0
  {
    if n > 0 {
      OnlyZeros(s, n - 1);
    }
  }

  lemma AppendDigits(s: string, t: string)
    requires AllDigits(s) && AllDigits(t)
    ensures AllDigits(s + t)
  {
  }

  lemma MantissaWithPoint(whole: string, fraction: string, exponent: int)
    requires AllDigits(whole) && AllDigits(fraction) && |whole + fraction| > 0
    ensures ParseMantissa(whole + "." + fraction, exponent)
         == Some(Decimal(FromDigits(whole + fraction), exponent - |fraction|))
  {
    var mantissa := whole + "." + fraction;
    var dot := IndexFrom(mantissa, '.', 0);
    assert forall k | 0 <= k < |whole| :: mantissa[k] == whole[k];
    assert mantissa[|whole|] == '.';
    assert dot == |whole|;
    assert mantissa[..dot] == whole;
    assert mantissa[dot + 1..] == fraction;
    AppendDigits(whole, fraction);
  }

  lemma MantissaWithoutPoint(whole: string, exponent: int)
    requires AllDigits(whole) && |whole| > 0
    ensures ParseMantissa(whole, exponent) == Some(Decimal(FromDigits(whole), exponent))
  {
    var dot := IndexFrom(whole, '.', 0);
    assert dot == |whole|;
    assert whole[..dot] + "" == whole;
  }

  lemma SplitAtExponent(mantissa: string, tail: string)
    requires forall k | 0 <= k < |mantissa| :: mantissa[k] != 'E'
    ensures Parse(mantissa) == ParseMantissa(mantissa, 0)
    ensures ParseExponent(tail).Some? ==>
              Parse(mantissa + "E" + tail) == ParseMantissa(mantissa, ParseExponent(tail).value)
  {
    assert IndexFrom(mantissa, 'E', 0) == |mantissa|;
    assert mantissa[..|mantissa|] == mantissa;
    var s := mantissa + "E" + tail;
    assert forall k | 0 <= k < |mantissa| :: s[k] == mantissa[k];
    assert s[|mantissa|] == 'E';
    assert IndexFrom(s, 'E', 0) == |mantissa|;
    assert s[..|mantissa|] == mantissa;
    assert s[|mantissa| + 1..] == tail;
  }

  lemma ParseNegativeExponent(n: nat)
    ensures ParseExponent("-" + ToDigits(n)) == Some(0 - n)
  {
    DigitsRoundTrip(n);
    var s := "-" + ToDigits(n);
    assert s[1..] == ToDigits(n);
  }

  /** The text of a grid number reads back as exactly that number of units. */
  lemma TextRoundTrip(units: nat)
    ensures Parse(Format(units)) == Some(Decimal(units, -8))
  {
    var digits := ToDigits(units);
    DigitsRoundTrip(units);
    if |digits| <= 2 {
      ScientificRoundTrip(digits);
    } else if |digits| <= 8 {
      FractionRoundTrip(digits);
    } else {
      PlainRoundTrip(digits);
    }
  }

  lemma PlainRoundTrip(digits: string)
    requires |digits| > 8 && AllDigits(digits)
    ensures Parse(FormatDigits(digits)) == Some(Decimal(FromDigits(digits), -8))
  {
    var left := |digits| - 8;
    var whole, fraction := digits[..left], digits[left..];
    assert whole + fraction == digits;
    MantissaWithPoint(whole, fraction, 0);
    SplitAtExponent(whole + "." + fraction, "");
  }

  lemma FractionRoundTrip(digits: string)
    requires 2 < |digits| <= 8 && AllDigits(digits)
    ensures Parse(FormatDigits(digits)) == Some(Decimal(FromDigits(digits), -8))
  {
    var padding := 8 - |digits|;
    var fraction := Zeros(padding) + digits;
    AppendDigits(Zeros(padding), digits);
    PaddedValue(padding, digits);
    MantissaWithPoint("0", fraction, 0);
    SplitAtExponent("0" + "." + fraction, "");
    assert "0." + Zeros(padding) + digits == "0" + "." + fraction;
  }

  lemma PaddedValue(padding: nat, digits: string)
    requires AllDigits(digits)
    ensures AllDigits("0" + (Zeros(padding) + digits))
    ensures FromDigits("0" + (Zeros(padding) + digits)) == FromDigits(digits)
  {
    assert "0" + (Zeros(padding) + digits) == Zeros(padding + 1) + digits;
    LeadingZeros(padding + 1, digits, |digits|);
  }

  lemma ScientificRoundTrip(digits: string)
    requires 1 <= |digits| <= 2 && AllDigits(digits)
    ensures Parse(FormatDigits(digits)) == Some(Decimal(FromDigits(digits), -8))
  {
    if |digits| == 1 {
      MantissaWithoutPoint(digits, -8);
      WithExponent(digits, 8);
    } else {
      TwoDigitsRoundTrip(digits[..1], digits[1..]);
      assert digits[..1] + digits[1..] == digits;
    }
  }

  lemma TwoDigitsRoundTrip(first: string, second: string)
    requires |first| == |second| == 1 && AllDigits(first) && AllDigits(second)
    ensures AllDigits(first + second)
    ensures Parse(first + "." + second + "E-" + ToDigits(7)) == Some(Decimal(FromDigits(first + second), -8))
  {
    MantissaWithPoint(first, second, -7);
    WithExponent(first + "." + second, 7);
  }

  lemma WithExponent(mantissa: string, exponent: nat)
    requires forall k | 0 <= k < |mantissa| :: mantissa[k] != 'E'
    ensures Parse(mantissa + "E-" + ToDigits(exponent)) == ParseMantissa(mantissa, 0 - exponent)
  {
    ParseNegativeExponent(exponent);
    SplitAtExponent(mantissa, "-" + ToDigits(exponent));
    assert mantissa + "E" + ("-" + ToDigits(exponent)) == mantissa + "E-" + ToDigits(exponent);
  }

  lemma GridDecimalValue(units: nat)
    ensures Decimal(units, -8).Value() == GridValue(units)
  {
    assert Pow10(2) == 100;
    assert Pow10(4) == 10000;
    assert Pow10(6) == 1000000;
    assert Pow10(8) == 100000000;
  }

  // ---------------------------------------------------------------- which texts there are

  lemma {:induction false} FirstDigit(n: nat)
    requires n > 0
    ensures ToDigits(n)[0] != '0'
    ensures n >= 100 ==> |ToDigits(n)| >= 3
  {
    if n >= 10 {
      FirstDigit(n / 10);
    }
  }

  /** The digits before and after a point, without a leading zero that is not needed. */
  predicate IsPlain(s: string, whole: string, fraction: string) {
    && s == whole + "." + fraction && AllDigits(whole) && AllDigits(fraction)
    && whole != "" && (whole == "0" || whole[0] != '0')
  }

  /** From 10^-6 on the text has eight decimals; below, it is one or two digits with an exponent. */
  lemma FormatShape(units: nat)
    ensures units >= 100 ==>
              exists whole, fraction ::
                IsPlain(Format(units), whole, fraction) && |fraction| == 8 && FromDigits(whole + fraction) == units
    ensures 10 <= units < 100 ==> Format(units) == [DIGITS[units / 10], '.', DIGITS[units % 10], 'E', '-', '7']
    ensures units < 10 ==> Format(units) == [DIGITS[units], 'E', '-', '8']
  {
    if units >= 100 {
      PlainShape(units);
    } else if units >= 10 {
      assert ToDigits(units) == [DIGITS[units / 10], DIGITS[units % 10]];
      assert ToDigits(7) == "7";
    } else {
      assert ToDigits(8) == "8";
    }
  }

  lemma PlainShape(units: nat)
    requires units >= 100
    ensures exists whole, fraction ::
              IsPlain(Format(units), whole, fraction) && |fraction| == 8 && FromDigits(whole + fraction) == units
  {
    var digits := ToDigits(units);
    FirstDigit(units);
    DigitsRoundTrip(units);
    if |digits| > 8 {
      var left := |digits| - 8;
      assert digits[..left] + digits[left..] == digits;
      assert IsPlain(Format(units), digits[..left], digits[left..]);
    } else {
      var fraction := Zeros(8 - |digits|) + digits;
      AppendDigits(Zeros(8 - |digits|), digits);
      PaddedValue(8 - |digits|, digits);
      assert Format(units) == "0" + "." + fraction;
      assert IsPlain(Format(units), "0", fraction);
    }
  }

  /** digits [ . digits ] with at least one digit. */
  predicate IsMantissa(s: string, whole: string, fraction: string) {
    && AllDigits(whole) && AllDigits(fraction) && whole + fraction != ""
    && (s == whole + "." + fraction || (s == whole && fraction == ""))
  }

  /** [ sign ] digits */
  predicate IsExponent(s: string, digits: string, exponent: int) {
    && AllDigits(digits) && digits != ""
    && (if s == "-" + digits then exponent == 0 - FromDigits(digits)
        else (s == digits || s == "+" + digits) && exponent == FromDigits(digits))
  }

  lemma ParseMantissaIff(s: string, exponent: int)
    ensures ParseMantissa(s, exponent).Some? <==> exists whole, fraction :: IsMantissa(s, whole, fraction)
    ensures forall whole, fraction | IsMantissa(s, whole, fraction) ::
              ParseMantissa(s, exponent) == Some(Decimal(FromDigits(whole + fraction), exponent - |fraction|))
  {
    if ParseMantissa(s, exponent).Some? {
      var dot := IndexFrom(s, '.', 0);
      var fraction := if dot < |s| then s[dot + 1..] else "";
      SplitDigits(s[..dot], fraction);
      assert s == if dot < |s| then s[..dot] + "." + fraction else s[..dot];
      assert IsMantissa(s, s[..dot], fraction);
    }
    forall whole, fraction | IsMantissa(s, whole, fraction)
      ensures ParseMantissa(s, exponent) == Some(Decimal(FromDigits(whole + fraction), exponent - |fraction|))
    {
      if s == whole + "." + fraction {
        MantissaWithPoint(whole, fraction, exponent);
      } else {
        assert whole + fraction == whole;
        MantissaWithoutPoint(whole, exponent);
      }
    }
  }

  lemma SplitDigits(s: string, t: string)
    requires AllDigits(s + t)
    ensures AllDigits(s) && AllDigits(t)
  {
    assert forall i | 0 <= i < |s| :: (s + t)[i] == s[i];
    assert forall i | 0 <= i < |t| :: (s + t)[|s| + i] == t[i];
  }

  lemma ParseExponentIff(s: string, exponent: int)
    ensures ParseExponent(s) == Some(exponent) <==> exists digits :: IsExponent(s, digits, exponent)
  {
    if ParseExponent(s) == Some(exponent) {
      var digits := if s[0] == '-' || s[0] == '+' then s[1..] else s;
      assert s[0] == '-' ==> s == "-" + digits;
      assert s[0] == '+' ==> s == "+" + digits;
      assert IsExponent(s, digits, exponent);
    }
    if digits :| IsExponent(s, digits, exponent) {
      assert s == "-" + digits ==> s[1..] == digits;
      assert s == "+" + digits ==> s[1..] == digits;
    }
  }

  ghost predicate MantissaText(s: string) {
    exists whole, fraction :: IsMantissa(s, whole, fraction)
  }

  ghost predicate ExponentText(s: string) {
    exists digits, exponent :: IsExponent(s, digits, exponent)
  }

  ghost predicate ScientificText(s: string, mantissa: string, tail: string) {
    s == mantissa + "E" + tail && MantissaText(mantissa) && ExponentText(tail)
  }

  /** A text is a decimal exactly if it is a mantissa, alone or followed by an E and an exponent. */
  lemma ParseIff(s: string)
    ensures Parse(s).Some? <==> MantissaText(s) || exists mantissa, tail :: ScientificText(s, mantissa, tail)
  {
    if Parse(s).Some? {
      ParsedText(s);
    }
    if MantissaText(s) {
      MantissaParses(s);
    }
    if mantissa, tail :| ScientificText(s, mantissa, tail) {
      ScientificParses(mantissa, tail);
    }
  }

  lemma ParsedMantissa(s: string, exponent: int)
    requires ParseMantissa(s, exponent).Some?
    ensures MantissaText(s)
  {
    ParseMantissaIff(s, exponent);
  }

  lemma ParsedExponent(s: string)
    requires ParseExponent(s).Some?
    ensures ExponentText(s)
  {
    ParseExponentIff(s, ParseExponent(s).value);
  }

  lemma ParsedText(s: string)
    requires Parse(s).Some?
    ensures MantissaText(s) || exists mantissa, tail :: ScientificText(s, mantissa, tail)
  {
    var e := IndexFrom(s, 'E', 0);
    if e == |s| {
      ParsedMantissa(s[..e], 0);
      assert s[..e] == s;
    } else {
      ParsedMantissa(s[..e], ParseExponent(s[e + 1..]).value);
      ParsedExponent(s[e + 1..]);
      SplitAt(s, e);
    }
  }

  lemma SplitAt(s: string, e: nat)
    requires e < |s| && s[e] == 'E' && MantissaText(s[..e]) && ExponentText(s[e + 1..])
    ensures exists mantissa, tail :: ScientificText(s, mantissa, tail)
  {
    assert s == s[..e] + "E" + s[e + 1..];
    assert ScientificText(s, s[..e], s[e + 1..]);
  }

  lemma NoE(mantissa: string)
    requires MantissaText(mantissa)
    ensures forall k | 0 <= k < |mantissa| :: mantissa[k] != 'E'
  {
    var whole, fraction :| IsMantissa(mantissa, whole, fraction);
  }

  lemma MantissaParses(s: string)
    requires MantissaText(s)
    ensures Parse(s).Some?
  {
    NoE(s);
    SplitAtExponent(s, "");
    ParseMantissaIff(s, 0);
  }

  lemma ScientificParses(mantissa: string, tail: string)
    requires MantissaText(mantissa) && ExponentText(tail)
    ensures Parse(mantissa + "E" + tail).Some?
  {
    var digits, exponent :| IsExponent(tail, digits, exponent);
    NoE(mantissa);
    ParseExponentIff(tail, exponent);
    SplitAtExponent(mantissa, tail);
    ParseMantissaIff(mantissa, exponent);
  }
}
