/** Times of day in the rules file: which second of the day a clock text stands for, and when a condition
    with one is met (server/rules.hpp, lines 190-214 and 827-833). */
module ClockTimes {
  import opened Arithmetic
  import opened Options
  import opened Text
  import opened Numbers
  import opened Rules
  import opened RuleReader
  import opened RulePrinter
  import opened RoundTrip
  import opened RuleEngine

  const DAY: nat := 86400

  // ----- Reading a clock text -----

  predicate IsNumeral(s: string) {
    s != "" && AllDigits(s)
  }

  /** What is read for a numeral that ends at `end`. */
  function NumeralAt(digits: string, end: nat): Option<(int, nat)>
    requires IsNumeral(digits)
  {
    if DigitsValue(digits) < INT_RANGE then Some((DigitsValue(digits), end)) else None
  }

  lemma NumeralIsRead(text: string, p: nat, digits: string)
    requires At(text, p, digits) && IsNumeral(digits)
    requires p + |digits| < |text| ==> !IsDigit(text[p + |digits|])
    ensures p <= |text|
    ensures ReadInt(text, p) == NumeralAt(digits, p + |digits|)
  {
    hide SkipDigits, DigitsValue;
    AtChar(text, p, digits, 0);
    NoBlanks(text, p);
    SkipDigitsAt(text, p, digits);
  }

  lemma ColonIsRead(text: string, p: nat)
    requires p < |text| && text[p] == ':'
    ensures ReadChar(text, p) == Some((':', p + 1))
  {
    NoBlanks(text, p);
  }

  function HoursAndMinutes(h: string, m: string): string {
    h + ":" + m
  }

  function Clock(h: string, m: string, s: string): string {
    HoursAndMinutes(h, m) + ":" + s
  }

  /** Where the parts of a clock text stand. */
  lemma PartsOf(h: string, m: string, tail: string)
    ensures var text := HoursAndMinutes(h, m) + tail;
      && At(text, 0, h) && |h| < |text| && text[|h|] == ':' && At(text, |h| + 1, m)
      && At(text, |h| + 1 + |m|, tail) && |text| == |h| + 1 + |m| + |tail|
  {}

  /** The second of the day, None when there is no such time. */
  function SecondOfDay(h: nat, m: nat, s: nat): Option<nat> {
    if h < 24 && m < 60 && s < 60 then Some(3600 * h + 60 * m + s) else None
  }

  lemma HoursAndMinutesAreRead(h: string, m: string, tail: string)
    requires IsNumeral(h) && IsNumeral(m) && (tail != "" ==> !IsDigit(tail[0]))
    ensures var text := HoursAndMinutes(h, m) + tail;
      && ReadInt(text, 0) == NumeralAt(h, |h|)
      && ReadChar(text, |h|) == Some((':', |h| + 1))
      && ReadInt(text, |h| + 1) == NumeralAt(m, |h| + 1 + |m|)
  {
    hide ReadInt, ReadChar, At, DigitsValue, HoursAndMinutes;
    var text := HoursAndMinutes(h, m) + tail;
    PartsOf(h, m, tail);
    NumeralIsRead(text, 0, h);
    ColonIsRead(text, |h|);
    if tail != "" {
      AtChar(text, |h| + 1 + |m|, tail, 0);
    }
    NumeralIsRead(text, |h| + 1, m);
  }

  /** A clock text with seconds, whatever its numbers and however many zeros in front. Seconds that do not
      fit an int are not read at all and count as none. */
  lemma ClockIsRead(h: string, m: string, s: string)
    requires IsNumeral(h) && IsNumeral(m) && IsNumeral(s)
    ensures TimeStringToSeconds(Clock(h, m, s)) ==
      SecondOfDay(DigitsValue(h), DigitsValue(m), if DigitsValue(s) < INT_RANGE then DigitsValue(s) else 0)
  {
    hide ReadInt, ReadChar, At, DigitsValue, HoursAndMinutes, TimeStringToSeconds, SecondOfDay, NumeralAt;
    var text, tail := Clock(h, m, s), ":" + s;
    assert text == HoursAndMinutes(h, m) + tail;
    HoursAndMinutesAreRead(h, m, tail);
    PartsOf(h, m, tail);
    var p := |h| + 1 + |m|;
    AtChar(text, p, tail, 0);
    ColonIsRead(text, p);
    AtSplit(text, p, ":", s);
    NumeralIsRead(text, p + 1, s);
    TimeOfParts(text, h, m, s);
  }

  lemma TimeOfParts(text: string, h: string, m: string, s: string)
    requires IsNumeral(h) && IsNumeral(m) && IsNumeral(s) && |text| == |h| + |m| + |s| + 2
    requires ReadInt(text, 0) == NumeralAt(h, |h|) && ReadChar(text, |h|) == Some((':', |h| + 1))
    requires var p := |h| + 1 + |m|;
      && ReadInt(text, |h| + 1) == NumeralAt(m, p) && ReadChar(text, p) == Some((':', p + 1))
      && ReadInt(text, p + 1) == NumeralAt(s, |text|)
    ensures TimeStringToSeconds(text) ==
      SecondOfDay(DigitsValue(h), DigitsValue(m), if DigitsValue(s) < INT_RANGE then DigitsValue(s) else 0)
  {
    hide ReadInt, ReadChar, DigitsValue;
  }

  lemma ShortClockIsRead(h: string, m: string)
    requires IsNumeral(h) && IsNumeral(m)
    ensures TimeStringToSeconds(HoursAndMinutes(h, m)) == SecondOfDay(DigitsValue(h), DigitsValue(m), 0)
  {
    hide ReadInt, At, DigitsValue, HoursAndMinutes;
    var text := HoursAndMinutes(h, m);
    assert text == text + "";
    HoursAndMinutesAreRead(h, m, "");
    PartsOf(h, m, "");
  }

  // ----- From the text to the second, and to the condition -----

  /** A second of the day as text; its seconds may be left out where there are none. */
  function ClockText(d: nat, withSeconds: bool): string {
    var h, m, s := NatToString(d / 3600), NatToString(d % 3600 / 60), NatToString(d % 60);
    if withSeconds then Clock(h, m, s) else HoursAndMinutes(h, m)
  }

  lemma SecondIsRead(d: nat, withSeconds: bool)
    requires d < DAY && (withSeconds || d % 60 == 0)
    ensures TimeStringToSeconds(ClockText(d, withSeconds)) == Some(d)
  {
    hide NatToString, TimeStringToSeconds, DigitsValue, Clock, HoursAndMinutes;
    var h, m, s := d / 3600, d % 3600 / 60, d % 60;
    NumeralValue(h);
    NumeralValue(m);
    NumeralValue(s);
    if withSeconds {
      ClockIsRead(NatToString(h), NatToString(m), NatToString(s));
    } else {
      ShortClockIsRead(NatToString(h), NatToString(m));
    }
  }

  lemma {:induction false} NormalizeIsExact(m: nat, e: nat)
    ensures ToReal(Normalize(false, m, e)) == (m * Pow10(e)) as real
    decreases m
  {
    hide Pow10;
    NextPower(e);
    NextPower(0);
    if m > 0 && m % 10 == 0 {
      NormalizeIsExact(m / 10, e + 1);
      TenTimes(m / 10, Pow10(e));
    }
  }

  /** The number a time condition gets from a quoted clock text: the second of the day, or 0 where there is
      no such time. */
  lemma TimeLiteral(h: string, m: string, s: string)
    requires IsNumeral(h) && IsNumeral(m) && IsNumeral(s)
    ensures var literal := LiteralNumber(Time, Clock(h, m, s), true);
      var hours, minutes, seconds := DigitsValue(h), DigitsValue(m), DigitsValue(s);
      && literal.Some?
      && ToReal(literal.value) ==
         if hours < 24 && minutes < 60 && seconds < 60 then (3600 * hours + 60 * minutes + seconds) as real
         else if hours < 24 && minutes < 60 && seconds >= INT_RANGE then (3600 * hours + 60 * minutes) as real
         else 0.0
  {
    hide TimeStringToSeconds, DigitsValue, Clock, Normalize;
    ClockIsRead(h, m, s);
    NextPower(0);
    var time := TimeStringToSeconds(Clock(h, m, s));
    if time.Some? {
      NormalizeIsExact(time.value, 0);
    }
  }

  /** How a time condition compares the second of the day with the one it names. */
  predicate ComparesSeconds(op: ConditionOperator, now: nat, d: nat) {
    match op
    case Equal => now == d
    case NotEqual => now != d
    case Less => now < d
    case LessEqual => now <= d
    case Greater => now > d
    case GreaterEqual => now >= d
    case UnknownOperator => false
  }

  lemma SecondsCompare(op: ConditionOperator, now: nat, d: nat)
    ensures Compare(op, now as real, d as real) <==> ComparesSeconds(op, now, d)
  {}

  /** A time condition written in the rules file with a clock text: it is read with that second, and met at
      exactly the seconds of the day that compare so with it, on whole seconds. */
  lemma TimeConditionMeans(data: string, p: nat, l: Layout, c: RuleCondition, rest: string, d: nat, withSeconds: bool,
          variables: map<uint32, real>, inputs: Inputs)
    requires At(data, p, ConditionText(l, c, rest)) && Blank(l.inner) && Blank(l.innerEnd)
    requires c.inputType == Time && c.valueInputType == UnknownInput
    requires c.valueIsString && c.valueString == ClockText(d, withSeconds)
    requires d < DAY && (withSeconds || d % 60 == 0)
    ensures ReadCondition(data, p).Ok?
    ensures var read := ReadCondition(data, p).value;
      && ToReal(read.valueNumber) == d as real
      && (ConditionMet(read, variables, inputs) <==> ComparesSeconds(c.op, inputs.secondsOfDay, d))
  {
    hide At, ConditionText, Blank, ReadCondition, ToReal, ClockText, TimeStringToSeconds, Normalize, Compare;
    var _ := ConditionRead(data, p, l, c, rest);
    SecondIsRead(d, withSeconds);
    NormalizeIsExact(d, 0);
    NextPower(0);
    SecondsCompare(c.op, inputs.secondsOfDay, d);
  }
}
