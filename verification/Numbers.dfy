/** Numbers of the rules file: what the JSON reader scans, what `std::stoul` and `std::stod` make of
    it, and what `operator<<` prints. A double is taken as the exact decimal it was read from. */
module Numbers {
  import opened Arithmetic
  import opened Options
  import opened Text

  /** (-1)^neg * mantissa * 10^exponent, the mantissa without trailing zeros. */
  datatype Decimal = Decimal(neg: bool, mantissa: nat, exponent: int) {
    predicate Normal() {
      if mantissa == 0 then exponent == 0 else mantissa % 10 != 0
    }
  }

  type Number = d: Decimal | d.Normal() witness Decimal(false, 0, 0)

  const ZERO: Number := Decimal(false, 0, 0)

  function Normalize(neg: bool, m: nat, e: int): Number
    decreases m
  {
    if m == 0 then Decimal(neg, 0, 0)
    else if m % 10 == 0 then Normalize(neg, m / 10, e + 1)
    else Decimal(neg, m, e)
  }

  lemma {:induction false} NormalizeScaled(neg: bool, m: nat, k: nat, e: int)
    requires m % 10 != 0
    ensures Normalize(neg, m * Pow10(k), e) == Decimal(neg, m, e + k)
    decreases k
  {
    hide Pow10;
    NextPower(0);
    if k > 0 {
      var v := m * Pow10(k - 1);
      NextPower(k - 1);
      TenTimes(m, Pow10(k - 1));
      TenthOf(v);
      Positive(m, Pow10(k - 1));
      NormalizeScaled(neg, m, k - 1, e + 1);
    }
  }

  // ----- Scanning -----

  function SkipSign(s: string, p: nat): (r: nat)
    ensures p <= r <= p + 1 && (p <= |s| ==> r <= |s|)
  {
    if p < |s| && (s[p] == '-' || s[p] == '+') then p + 1 else p
  }

  function SkipFraction(s: string, p: nat): (r: nat)
    ensures p <= r && (p <= |s| ==> r <= |s|)
    ensures r > p ==> p < |s| && s[p] == '.' && AllDigits(s[p + 1..r])
  {
    if p < |s| && s[p] == '.' then SkipDigits(s, p + 1) else p
  }

  predicate ExponentMark(s: string, p: nat) {
    p < |s| && (s[p] == 'e' || s[p] == 'E')
  }

  datatype Scan = Scan(ok: bool, text: string, pos: nat)

  /** `parseJsonNumberAsString`, behind its leading blanks. */
  function ScanNumber(data: string, start: nat): (r: Scan)
    requires start <= |data|
    ensures start <= r.pos <= |data|
    ensures r.ok ==> start < r.pos && r.text == data[start..r.pos]
  {
    var p1 := SkipSign(data, start);
    var p2 := SkipDigits(data, p1);
    var p3 := SkipFraction(data, p2);
    if p2 == p1 && p3 <= p2 + 1 then
      Scan(false, "", p3)
    else if ExponentMark(data, p3) then
      var p4 := SkipSign(data, p3 + 1);
      var p5 := SkipDigits(data, p4);
      if p5 == p4 then Scan(false, "", p5) else Scan(true, data[start..p5], p5)
    else
      Scan(true, data[start..p3], p3)
  }

  // ----- The parts of a number -----

  function MantissaEnd(data: string, p: nat): (r: nat)
    ensures p <= r && (p <= |data| ==> r <= |data|)
  {
    SkipFraction(data, SkipDigits(data, SkipSign(data, p)))
  }

  function ExponentStart(data: string, p: nat): (r: nat)
    ensures p < r
  {
    SkipSign(data, p + 1)
  }

  function ExponentEnd(data: string, p: nat): (r: nat)
    ensures p < r
  {
    SkipDigits(data, ExponentStart(data, p))
  }

  /** No digit before the exponent. */
  predicate Digitless(data: string, p: nat) {
    var p1 := SkipSign(data, p);
    SkipDigits(data, p1) == p1 && MantissaEnd(data, p) <= p1 + 1
  }

  lemma PlainIs(data: string, p: nat)
    requires p <= |data| && !ExponentMark(data, MantissaEnd(data, p))
    ensures var p3 := MantissaEnd(data, p);
      ScanNumber(data, p) == if Digitless(data, p) then Scan(false, "", p3) else Scan(true, data[p..p3], p3)
  {
    hide SkipSign, SkipDigits, SkipFraction;
  }

  lemma ScientificIs(data: string, p: nat)
    requires p <= |data| && ExponentMark(data, MantissaEnd(data, p))
    ensures var p3 := MantissaEnd(data, p);
      var p5 := ExponentEnd(data, p3);
      && p5 <= |data|
      && ScanNumber(data, p) ==
         if Digitless(data, p) then Scan(false, "", p3)
         else if p5 == ExponentStart(data, p3) then Scan(false, "", p5)
         else Scan(true, data[p..p5], p5)
  {
    hide SkipSign, SkipDigits, SkipFraction;
  }

  // ----- Conversions of the C++ library -----

  const ULONG_RANGE: nat := 0x1_0000_0000_0000_0000
  const UINT32_RANGE: nat := 0x1_0000_0000

  type uint32 = n: nat | n < UINT32_RANGE

  /** `std::stoul`: None when it throws; a minus sign negates modulo 2^64. */
  function Stoul(s: string): (r: Option<nat>)
    ensures r.Some? ==> r.value < ULONG_RANGE
  {
    var p0 := SkipBlanks(s, 0);
    var p1 := SkipSign(s, p0);
    var p2 := SkipDigits(s, p1);
    var v := DigitsValue(s[p1..p2]);
    if p2 == p1 || v >= ULONG_RANGE then None
    else if p1 > p0 && s[p0] == '-' && v > 0 then Some(ULONG_RANGE - v)
    else Some(v)
  }

  /** A number printed is read back. */
  lemma StoulOfNumeral(n: nat)
    requires n < ULONG_RANGE
    ensures Stoul(NatToString(n)) == Some(n)
  {
    hide NatToString, DigitsValue;
    var s := NatToString(n);
    AtWhole(s);
    SkipDigitsAt(s, 0, s);
    NoBlanks(s, 0);
    NumeralValue(n);
    assert s[0..|s|] == s;
  }

  function FractionDigits(s: string, p2: nat): (r: string)
    requires p2 <= |s|
    ensures AllDigits(r)
  {
    var p3 := SkipFraction(s, p2);
    if p3 > p2 then s[p2 + 1..p3] else ""
  }

  function ExponentValue(s: string, p: nat): int {
    if !ExponentMark(s, p) then 0
    else
      var p4 := SkipSign(s, p + 1);
      var e: int := DigitsValue(s[p4..SkipDigits(s, p4)]);
      if p4 > p + 1 && s[p + 1] == '-' then -e else e
  }

  /** `std::stod` on decimal notation: None when it throws, anything behind the number is ignored.
      An exponent without digits is not part of the number (its value here is then 0). */
  function Stod(s: string): Option<Number> {
    var p0 := SkipBlanks(s, 0);
    var p1 := SkipSign(s, p0);
    var p2 := SkipDigits(s, p1);
    var fraction := FractionDigits(s, p2);
    var digits := s[p1..p2] + fraction;
    if digits == "" then None
    else Some(Normalize(p1 > p0 && s[p0] == '-', DigitsValue(digits),
                        ExponentValue(s, SkipFraction(s, p2)) - |fraction|))
  }

  // ----- Printing a double: six significant digits, the shorter of fixed and scientific notation -----

  /** The pieces of a number as it is written: the mark is the letter and sign of an exponent. */
  datatype Lexeme = Lexeme(neg: bool, whole: string, fraction: string, mark: string, exp: string) {
    predicate Valid() {
      && AllDigits(whole) && AllDigits(fraction) && AllDigits(exp) && whole != ""
      && (if mark == "" then exp == "" else exp != "" && ValidMark())
    }

    predicate ValidMark() {
      && 1 <= |mark| <= 2
      && (mark[0] == 'e' || mark[0] == 'E')
      && (|mark| == 2 ==> mark[1] == '-' || mark[1] == '+')
    }

    function Text(): string {
      Sign() + (whole + (Fraction() + Exponent()))
    }

    function Sign(): string { if neg then "-" else "" }

    function Fraction(): string { if fraction == "" then "" else "." + fraction }

    function Exponent(): string { mark + exp }

    predicate NegativeExponent() {
      |mark| == 2 && mark[1] == '-'
    }

    function Value(): Number
      requires Valid()
    {
      var e: int := DigitsValue(exp);
      Normalize(neg, DigitsValue(whole + fraction), (if NegativeExponent() then -e else e) - |fraction|)
    }
  }

  const PRECISION: nat := 6

  /** The quotient rounded to the nearest integer, ties to even. */
  function RoundHalfEven(m: nat, unit: nat): nat
    requires unit > 0
  {
    var q, r := m / unit, m % unit;
    if 2 * r > unit || (2 * r == unit && q % 2 == 1) then q + 1 else q
  }

  function DigitCount(d: Number): nat {
    |NatToString(d.mantissa)|
  }

  /** Rounding to six significant digits. */
  function Round6(d: Number): Number {
    var n := DigitCount(d);
    if n <= PRECISION then d
    else Normalize(d.neg, RoundHalfEven(d.mantissa, Pow10(n - PRECISION)), d.exponent + n - PRECISION)
  }

  function TwoDigits(n: nat): (r: string)
    ensures AllDigits(r) && r != ""
  {
    if n < 10 then "0" + NatToString(n) else NatToString(n)
  }

  /** `%g`: fixed notation while the decimal exponent x satisfies -4 <= x < 6. */
  function FormOf(d: Number): (f: Lexeme)
    ensures f.Valid()
  {
    var digits := NatToString(d.mantissa);
    var n := |digits|;
    var x := d.exponent + n - 1;
    if x < -4 || x >= PRECISION then
      Lexeme(d.neg, digits[..1], digits[1..], if x < 0 then "e-" else "e+", TwoDigits(if x < 0 then -x else x))
    else if d.exponent >= 0 then
      Lexeme(d.neg, digits + Zeros(d.exponent), "", "", "")
    else if x >= 0 then
      Lexeme(d.neg, digits[..x + 1], digits[x + 1..], "", "")
    else
      Lexeme(d.neg, "0", Zeros(-x - 1) + digits, "", "")
  }

  function FormatDouble(d: Number): string {
    FormOf(Round6(d)).Text()
  }

  // ----- Reading back what was printed -----

  lemma NormalStays(d: Number)
    ensures Normalize(d.neg, d.mantissa, d.exponent) == d
  {}

  /** The printed form denotes the number it was made from. */
  lemma FormIsExact(d: Number)
    ensures FormOf(d).Value() == d
  {
    hide Normalize, NatToString, DigitsValue;
    var digits := NatToString(d.mantissa);
    var x := d.exponent + |digits| - 1;
    NumeralValue(d.mantissa);
    NormalStays(d);
    NoDigits("");
    if x < -4 || x >= PRECISION {
      assert digits[..1] + digits[1..] == digits;
      TwoDigitsValue(if x < 0 then -x else x);
    } else if d.exponent >= 0 {
      PaddedIsExact(d);
    } else if x >= 0 {
      assert digits[..x + 1] + digits[x + 1..] == digits;
    } else {
      assert "0" + (Zeros(-x - 1) + digits) == Zeros(-x) + digits;
      LeadingZeros(-x, digits);
    }
  }

  lemma LeadingZeros(n: nat, digits: string)
    requires AllDigits(digits)
    ensures AllDigits(Zeros(n) + digits) && DigitsValue(Zeros(n) + digits) == DigitsValue(digits)
  {
    DigitsConcat(Zeros(n), digits);
    ZerosValue(n);
  }

  lemma PaddedIsExact(d: Number)
    requires d.exponent >= 0
    ensures AllDigits(NatToString(d.mantissa) + Zeros(d.exponent) + "")
    ensures Normalize(d.neg, DigitsValue(NatToString(d.mantissa) + Zeros(d.exponent) + ""), 0) == d
  {
    var digits := NatToString(d.mantissa);
    assert digits + Zeros(d.exponent) + "" == digits + Zeros(d.exponent);
    DigitsConcat(digits, Zeros(d.exponent));
    ZerosValue(d.exponent);
    NumeralValue(d.mantissa);
    if d.mantissa == 0 {
      assert Pow10(0) == 1;
    } else {
      NormalizeScaled(d.neg, d.mantissa, d.exponent, 0);
    }
  }

  lemma TwoDigitsValue(n: nat)
    ensures DigitsValue(TwoDigits(n)) == n
  {
    NumeralValue(n);
    if n < 10 {
      DigitsConcat("0", NatToString(n));
      assert DigitsValue("0") == 0 by { assert "0"[..0] == []; }
    }
  }

  /** What may follow a number without becoming part of it. */
  predicate Delimited(data: string, q: nat) {
    q < |data| ==> !IsDigit(data[q]) && data[q] != '.' && data[q] != 'e' && data[q] != 'E'
  }

  lemma LexemePlaces(data: string, p: nat, l: Lexeme)
    requires At(data, p, l.Text())
    ensures var p1 := p + |l.Sign()|;
      var p2 := p1 + |l.whole|;
      var p3 := p2 + |l.Fraction()|;
      && At(data, p, l.Sign()) && At(data, p1, l.whole) && At(data, p2, l.Fraction()) && At(data, p3, l.Exponent())
      && p3 + |l.Exponent()| == p + |l.Text()|
  {
    hide At;
    var p1 := p + |l.Sign()|;
    AtSplit(data, p, l.Sign(), l.whole + (l.Fraction() + l.Exponent()));
    AtSplit(data, p1, l.whole, l.Fraction() + l.Exponent());
    AtSplit(data, p1 + |l.whole|, l.Fraction(), l.Exponent());
  }

  predicate NoMoreDigits(data: string, q: nat) {
    q < |data| ==> !IsDigit(data[q])
  }

  lemma SignPart(data: string, p: nat, l: Lexeme)
    requires l.Valid() && At(data, p, l.Sign()) && At(data, p + |l.Sign()|, l.whole)
    ensures var p1 := p + |l.Sign()|;
      SkipSign(data, p) == p1 && (l.neg <==> p1 > p && data[p] == '-') && p < |data| && !IsSpace(data[p])
  {
    AtChar(data, p + |l.Sign()|, l.whole, 0);
    if l.neg {
      AtChar(data, p, l.Sign(), 0);
    }
  }

  lemma ExponentPlaces(data: string, p3: nat, l: Lexeme)
    requires l.Valid() && At(data, p3, l.Exponent()) && Delimited(data, p3 + |l.Exponent()|)
    ensures ExponentMark(data, p3) <==> l.mark != ""
    ensures p3 < |data| ==> !IsDigit(data[p3]) && data[p3] != '.'
    ensures l.mark != "" ==>
      var p4 := p3 + |l.mark|;
      && SkipSign(data, p3 + 1) == p4 && At(data, p4, l.exp) && SkipDigits(data, p4) == p4 + |l.exp|
      && (l.NegativeExponent() <==> p4 > p3 + 1 && data[p3 + 1] == '-')
  {
    hide At, SkipDigits, DigitsValue, AllDigits, SkipSign;
    if l.mark != "" {
      AtSplit(data, p3, l.mark, l.exp);
      AtChar(data, p3, l.mark, 0);
      FirstDigit(data, p3 + |l.mark|, l.exp);
      MarkPlaces(data, p3, l);
      SkipDigitsAt(data, p3 + |l.mark|, l.exp);
    }
  }

  /** The sign of an exponent, if there is one. */
  lemma MarkPlaces(data: string, p3: nat, l: Lexeme)
    requires 1 <= |l.mark| <= 2 && At(data, p3, l.mark) && (|l.mark| == 2 ==> l.mark[1] == '-' || l.mark[1] == '+')
    requires p3 + |l.mark| < |data| && IsDigit(data[p3 + |l.mark|])
    ensures SkipSign(data, p3 + 1) == p3 + |l.mark|
    ensures l.NegativeExponent() <==> |l.mark| > 1 && data[p3 + 1] == '-'
  {
    hide At;
    if |l.mark| == 2 {
      AtChar(data, p3, l.mark, 1);
    }
  }

  lemma ExponentPart(data: string, p3: nat, l: Lexeme)
    requires l.Valid() && At(data, p3, l.Exponent()) && Delimited(data, p3 + |l.Exponent()|)
    ensures ExponentMark(data, p3) <==> l.mark != ""
    ensures p3 < |data| ==> !IsDigit(data[p3]) && data[p3] != '.'
    ensures l.mark != "" ==> SkipSign(data, p3 + 1) == p3 + |l.mark|
    ensures l.mark != "" ==> SkipDigits(data, p3 + |l.mark|) == p3 + |l.mark| + |l.exp|
    ensures ExponentValue(data, p3) == if l.NegativeExponent() then -(DigitsValue(l.exp) as int) else DigitsValue(l.exp)
  {
    hide At, SkipDigits, SkipSign, ExponentMark, DigitsValue, AllDigits, Delimited;
    ExponentPlaces(data, p3, l);
    if l.mark != "" {
      AtDigits(data, p3 + |l.mark|, l.exp);
    } else {
      NoDigits(l.exp);
    }
  }

  lemma FirstDigit(data: string, p: nat, s: string)
    requires At(data, p, s) && AllDigits(s) && s != ""
    ensures p < |data| && IsDigit(data[p])
  {
    AtChar(data, p, s, 0);
  }

  lemma AtDigits(data: string, p: nat, s: string)
    requires At(data, p, s) && SkipDigits(data, p) == p + |s|
    ensures data[p..SkipDigits(data, p)] == s
  {}

  lemma FractionPart(data: string, p2: nat, l: Lexeme)
    requires l.Valid() && At(data, p2, l.Fraction())
    requires var p3 := p2 + |l.Fraction()|; p3 < |data| ==> !IsDigit(data[p3]) && data[p3] != '.'
    ensures SkipFraction(data, p2) == p2 + |l.Fraction()|
    ensures FractionDigits(data, p2) == l.fraction
    ensures NoMoreDigits(data, p2)
  {
    if l.fraction != "" {
      AtChar(data, p2, l.Fraction(), 0);
      AtSplit(data, p2, ".", l.fraction);
      SkipDigitsAt(data, p2 + 1, l.fraction);
    }
  }

  /** Where the parts of a printed number end. */
  lemma LexemeParts(data: string, p: nat, l: Lexeme)
    requires l.Valid() && At(data, p, l.Text()) && Delimited(data, p + |l.Text()|)
    ensures var p1 := p + |l.Sign()|;
      var p2 := p1 + |l.whole|;
      var p3 := p2 + |l.Fraction()|;
      && SkipSign(data, p) == p1 && SkipDigits(data, p1) == p2 && SkipFraction(data, p2) == p3
      && At(data, p1, l.whole) && FractionDigits(data, p2) == l.fraction
      && (l.neg <==> p1 > p && data[p] == '-') && p < |data| && !IsSpace(data[p])
      && At(data, p3, l.Exponent()) && p3 + |l.Exponent()| == p + |l.Text()|
  {
    hide SkipDigits, SkipFraction, FractionDigits, At, SkipSign, AllDigits, ExponentMark, ExponentValue, DigitsValue;
    hide Lexeme.Text, Lexeme.Sign, Lexeme.Exponent, Lexeme.Fraction;
    var p1 := p + |l.Sign()|;
    var p2 := p1 + |l.whole|;
    LexemePlaces(data, p, l);
    ExponentPart(data, p2 + |l.Fraction()|, l);
    FractionPart(data, p2, l);
    SkipDigitsAt(data, p1, l.whole);
    SignPart(data, p, l);
  }

  /** The reader scans exactly a printed number. */
  lemma ScanLexeme(data: string, p: nat, l: Lexeme)
    requires l.Valid() && At(data, p, l.Text()) && Delimited(data, p + |l.Text()|)
    ensures ScanNumber(data, p) == Scan(true, l.Text(), p + |l.Text()|)
  {
    hide SkipDigits, SkipFraction, FractionDigits, ExponentMark, ExponentValue, SkipSign, ScanNumber;
    hide At, AllDigits, IsSpace, DigitsValue, Lexeme.Text, Lexeme.Sign, Lexeme.Exponent, Lexeme.Fraction;
    var p3 := p + |l.Sign()| + |l.whole| + |l.Fraction()|;
    LexemeParts(data, p, l);
    ExponentPart(data, p3, l);
    ScientificLength(l);
    AtDigitsText(data, p, l.Text());
    if l.mark == "" {
      PlainIs(data, p);
    } else {
      ScientificIs(data, p);
    }
  }

  lemma AtDigitsText(data: string, p: nat, s: string)
    requires At(data, p, s)
    ensures data[p..p + |s|] == s
  {}

  lemma ScientificLength(l: Lexeme)
    requires l.Valid()
    ensures |l.Exponent()| == |l.mark| + |l.exp|
    ensures l.mark != "" <==> |l.exp| > 0
    ensures |l.whole| > 0
  {}

  /** `std::stod` gives the number printed. */
  lemma StodLexeme(l: Lexeme)
    requires l.Valid()
    ensures Stod(l.Text()) == Some(l.Value())
  {
    hide SkipDigits, SkipFraction, FractionDigits, ExponentMark, Normalize, DigitsValue, ExponentValue, SkipSign;
    hide At, AllDigits, IsSpace, Lexeme.Text, Lexeme.Sign, Lexeme.Exponent, Lexeme.Fraction;
    var s := l.Text();
    var p1 := |l.Sign()|;
    var p3 := p1 + |l.whole| + |l.Fraction()|;
    AtWhole(s);
    LexemeParts(s, 0, l);
    ExponentPart(s, p3, l);
    NoExponent(s, p3);
    AtDigitsText(s, p1, l.whole);
    ScientificLength(l);
    assert SkipBlanks(s, 0) == 0;
  }

  lemma NoExponent(s: string, p: nat)
    ensures !ExponentMark(s, p) ==> ExponentValue(s, p) == 0
  {}

  /** Printing and reading a double rounds it to six significant digits. */
  lemma StodOfPrinted(d: Number)
    ensures Stod(FormatDouble(d)) == Some(Round6(d))
  {
    hide *;
    StodLexeme(FormOf(Round6(d)));
    FormIsExact(Round6(d));
    FormatIsText(d);
  }

  lemma FormatIsText(d: Number)
    ensures FormatDouble(d) == FormOf(Round6(d)).Text()
  {}

  /** Nothing is lost exactly when there are at most six significant digits. */
  lemma Round6Exact(d: Number)
    ensures Round6(d) == d <==> DigitCount(d) <= PRECISION
  {
    hide RoundHalfEven, NatToString, Normalize;
    var n := DigitCount(d);
    if n > PRECISION {
      RoundedFits(d);
      var v := RoundHalfEven(d.mantissa, Pow10(n - PRECISION));
      NormalizeShrinks(d.neg, v, d.exponent + n - PRECISION);
      NumeralLength(d.mantissa, PRECISION);
      MillionIsNotNormal(d.neg, d.exponent + n - PRECISION);
      assert Pow10(PRECISION) <= d.mantissa;
      assert v < Pow10(PRECISION) || Round6(d).mantissa == 1;
    }
  }

  lemma NormalizeShrinks(neg: bool, m: nat, e: int)
    ensures Normalize(neg, m, e).mantissa <= m
  {}

  lemma MillionIsNotNormal(neg: bool, e: int)
    ensures Normalize(neg, Pow10(PRECISION), e).mantissa == 1
  {
    NormalizeScaled(neg, 1, PRECISION, e);
  }

  /** Six digits, rounded up at most to the next power of ten. */
  lemma RoundedFits(d: Number)
    requires DigitCount(d) > PRECISION
    ensures RoundHalfEven(d.mantissa, Pow10(DigitCount(d) - PRECISION)) <= Pow10(PRECISION)
  {
    hide NatToString;
    var n := DigitCount(d);
    var unit := Pow10(n - PRECISION);
    NumeralLength(d.mantissa, n);
    Pow10Plus(PRECISION, n - PRECISION);
    QuotientBound(d.mantissa, unit, Pow10(PRECISION));
  }

  lemma QuotientBound(m: nat, unit: nat, bound: nat)
    requires unit > 0 && m < bound * unit
    ensures m / unit < bound
  {
    var q := m / unit;
    assert q * unit <= m;
    if bound <= q {
      MulMonotone(bound, q, unit);
    }
  }

  lemma {:induction false} Pow10Plus(a: nat, b: nat)
    ensures Pow10(a + b) == Pow10(a) * Pow10(b)
  {
    hide Pow10;
    NextPower(0);
    if a > 0 {
      Pow10Plus(a - 1, b);
      NextPower(a - 1);
      NextPower(a - 1 + b);
      TenTimes(Pow10(a - 1), Pow10(b));
    }
  }

  // ----- Which number is printed, and how -----

  lemma {:induction false} NormalizeKeeps(neg: bool, m: nat, e: int)
    requires m > 0
    ensures var r := Normalize(neg, m, e); r.neg == neg && e <= r.exponent && r.mantissa * Pow10(r.exponent - e) == m
    decreases m
  {
    hide Pow10;
    NextPower(0);
    if m % 10 == 0 {
      NormalizeKeeps(neg, m / 10, e + 1);
      var r := Normalize(neg, m, e);
      NextPower(r.exponent - e - 1);
      TenTimes(r.mantissa, Pow10(r.exponent - e - 1));
    }
  }

  lemma NearestUnit(m: nat, unit: nat) returns (v: nat)
    requires unit > 0
    ensures var q := RoundHalfEven(m, unit);
      && v == q * unit && 2 * m <= 2 * v + unit && 2 * v <= 2 * m + unit
      && (2 * m == 2 * v + unit || 2 * v == 2 * m + unit ==> q % 2 == 0)
  {
    var q, r := m / unit, m % unit;
    assert m == unit * q + r;
    v := q * unit;
    if RoundHalfEven(m, unit) == q + 1 {
      v := (q + 1) * unit;
      assert v == q * unit + unit;
    }
  }

  /** A number with more than six digits is printed as the nearest one with six, in steps of its sixth
      digit, and as the one with the even sixth digit where two are nearest. */
  lemma RoundIsNearest(d: Number) returns (q: nat)
    requires DigitCount(d) > PRECISION
    ensures var r, unit := Round6(d), Pow10(DigitCount(d) - PRECISION);
      && r.neg == d.neg && d.exponent <= r.exponent
      && var v := r.mantissa * Pow10(r.exponent - d.exponent);
      && v == q * unit && 2 * d.mantissa <= 2 * v + unit && 2 * v <= 2 * d.mantissa + unit
      && (2 * d.mantissa == 2 * v + unit || 2 * v == 2 * d.mantissa + unit ==> q % 2 == 0)
  {
    hide RoundHalfEven, NatToString, Normalize, Pow10;
    var k := DigitCount(d) - PRECISION;
    q := RoundHalfEven(d.mantissa, Pow10(k));
    SixDigitsLeft(d);
    NormalizeKeeps(d.neg, q, d.exponent + k);
    var r := Round6(d);
    var more := r.exponent - d.exponent - k;
    Pow10Plus(more, k);
    Reassociate(r.mantissa, Pow10(more), Pow10(k));
    var _ := NearestUnit(d.mantissa, Pow10(k));
  }

  lemma Reassociate(a: nat, b: nat, c: nat)
    ensures a * (b * c) == (a * b) * c
  {}

  lemma SixDigitsLeft(d: Number)
    requires DigitCount(d) > PRECISION
    ensures RoundHalfEven(d.mantissa, Pow10(DigitCount(d) - PRECISION)) > 0
  {
    hide NatToString, Pow10;
    var k := DigitCount(d) - PRECISION;
    NumeralLength(d.mantissa, k);
    NotLost(d.mantissa, Pow10(k));
  }

  lemma NotLost(m: nat, unit: nat)
    requires 0 < unit <= m
    ensures RoundHalfEven(m, unit) > 0
  {}

  /** A number is printed without an exponent exactly when it is at least 0.0001 and less than a million,
      or zero; an exponent has a sign and at least two digits. */
  lemma PlainNotation(d: Number)
    ensures FormOf(d).mark == "" <==>
      && (if d.exponent < PRECISION then d.mantissa < Pow10(PRECISION - d.exponent) else false)
      && (d.exponent > -5 || d.mantissa >= Pow10(-4 - d.exponent))
    ensures FormOf(d).mark != "" ==> |FormOf(d).mark| == 2 && |FormOf(d).exp| >= 2
  {
    hide NatToString, Pow10;
    if d.exponent < PRECISION {
      NumeralLength(d.mantissa, PRECISION - d.exponent);
    }
    if d.exponent <= -5 {
      NumeralLength(d.mantissa, -4 - d.exponent);
    }
    var x := d.exponent + DigitCount(d) - 1;
    AtLeastTwo(if x < 0 then -x else x);
  }

  lemma AtLeastTwo(n: nat)
    ensures |TwoDigits(n)| >= 2
  {}
}
