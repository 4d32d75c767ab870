/** Reading what was printed. For every list of rules, well-formed or not, `Reread...` says what the
    reader makes of the printed text; `RereadIsRead` proves it of the reader itself. */
module RoundTrip {
  import opened Options
  import opened Text
  import opened Numbers
  import opened JsonReader
  import opened Rules
  import opened RuleReader
  import opened RulePrinter

  lemma AtInside(data: string, p: nat, s: string)
    requires At(data, p, s)
    ensures p <= |data| && (s != "" ==> p < |data|)
  {}

  // ----- Strings -----

  lemma Regroup(x: string, y: string, z: string)
    ensures (x + y) + z == x + (y + z)
  {}

  lemma EscapeFirst(s: string, rest: string)
    requires s != ""
    ensures Escape(s) + rest == EscapeChar(s[0]) + (Escape(s[1..]) + rest)
    ensures |Escape(s)| == |EscapeChar(s[0])| + |Escape(s[1..])|
  {
    hide EscapeChar;
    assert Escape(s) == EscapeChar(s[0]) + Escape(s[1..]);
    hide Escape;
    Regroup(EscapeChar(s[0]), Escape(s[1..]), rest);
  }

  lemma EmptyTail(data: string, p: nat, rest: string)
    requires At(data, p, Escape("") + ("\"" + rest))
    ensures StringTail(data, p) == Scan(true, "", p + 1) && At(data, p + 1, rest) && Escape("") == ""
  {
    hide At;
    assert "" + ("\"" + rest) == "\"" + rest;
    AtSplit(data, p, "\"", rest);
    AtChar(data, p, "\"", 0);
  }

  /** The reader undoes the printer's escapes, whatever the characters. */
  lemma {:induction false} StringTailOfEscaped(data: string, p: nat, s: string, rest: string)
    requires At(data, p, Escape(s) + ("\"" + rest))
    ensures StringTail(data, p) == Scan(true, s, p + |Escape(s)| + 1)
    ensures At(data, p + |Escape(s)| + 1, rest)
    decreases |s|
  {
    hide At, Escape, EscapeChar, StringTail;
    if s == "" {
      EmptyTail(data, p, rest);
    } else {
      var e, tail := EscapeChar(s[0]), Escape(s[1..]) + ("\"" + rest);
      EscapeFirst(s, "\"" + rest);
      AtSplit(data, p, e, tail);
      AtInside(data, p + |e|, tail);
      StringTailOfEscaped(data, p + |e|, s[1..], rest);
      assert [s[0]] + s[1..] == s;
      EscapedChar(data, p, s[0]);
    }
  }

  lemma EscapedChar(data: string, p: nat, c: char)
    requires At(data, p, EscapeChar(c)) && p + |EscapeChar(c)| < |data|
    ensures StringTail(data, p) == Prefixed([c], StringTail(data, p + |EscapeChar(c)|))
  {
    hide At;
    AtChar(data, p, EscapeChar(c), 0);
    if |EscapeChar(c)| == 2 {
      AtChar(data, p, EscapeChar(c), 1);
    }
  }

  lemma QuotedScan(data: string, p: nat, s: string, rest: string)
    requires At(data, p, Quoted(s) + rest)
    ensures p < |data| && data[p] == '"'
    ensures StringScan(data, p) == Scan(true, s, p + |Quoted(s)|)
    ensures At(data, p + |Quoted(s)|, rest)
  {
    hide At, StringTail, Escape;
    assert Quoted(s) + rest == "\"" + (Escape(s) + ("\"" + rest));
    AtSplit(data, p, "\"", Escape(s) + ("\"" + rest));
    AtChar(data, p, "\"", 0);
    StringTailOfEscaped(data, p + 1, s, rest);
  }

  /** Names without anything to escape. */
  predicate Plain(k: string) {
    forall i :: 0 <= i < |k| ==> 'A' <= k[i] <= 'Z' || 'a' <= k[i] <= 'z'
  }

  lemma {:induction false} PlainEscape(k: string)
    requires Plain(k)
    ensures Escape(k) == k
    decreases |k|
  {
    if k != "" {
      assert EscapeChar(k[0]) == [k[0]];
      PlainEscape(k[1..]);
    }
  }

  lemma PlainConditionKeys()
    ensures Plain("inputType") && Plain("inputAddress") && Plain("operator")
    ensures Plain("valueType") && Plain("valueAddress") && Plain("value")
  {}

  lemma PlainCommandKeys()
    ensures Plain("type") && Plain("data") && Plain("address")
  {}

  lemma PlainRuleKeys()
    ensures Plain("id") && Plain("enabled") && Plain("name") && Plain("conditions") && Plain("commands")
  {}

  // ----- Member heads, values, commas, brackets -----

  lemma KeyRead(data: string, p: nat, blanks: string, k: string, rest: string)
    requires At(data, p, blanks + (Key(k) + rest)) && Blank(blanks) && Plain(k)
    ensures var q := p + |blanks| + |Key(k)|;
      NextMember(data, p) == Member(k, q) && At(data, q, rest)
  {
    hide At, StringScan, Escape, Blank, SkipBlanks;
    var p1 := p + |blanks|;
    PlainEscape(k);
    assert Key(k) + rest == Quoted(k) + (":" + rest);
    AtSplit(data, p, blanks, Key(k) + rest);
    QuotedScan(data, p1, k, ":" + rest);
    AtSplit(data, p1 + |Quoted(k)|, ":", rest);
    AtChar(data, p1 + |Quoted(k)|, ":", 0);
    BlanksEnd(data, p, blanks);
    NoBlanks(data, p1);
    NoBlanks(data, p1 + |Quoted(k)|);
  }

  lemma BlanksEnd(data: string, p: nat, blanks: string)
    requires At(data, p, blanks) && Blank(blanks) && p + |blanks| < |data| && !IsSpace(data[p + |blanks|])
    ensures SkipBlanks(data, p) == p + |blanks|
  {
    SkipBlanksAt(data, p, blanks);
  }

  /** Printed values are followed by a comma, a closing bracket or a blank. */
  predicate Follows(rest: string) {
    rest != "" && (rest[0] == ',' || rest[0] == '}' || rest[0] == ']' || IsSpace(rest[0]))
  }

  lemma ClosesFollow(blanks: string, bracket: string, rest: string)
    requires Blank(blanks) && (bracket == "}" || bracket == "]")
    ensures Follows(Close(blanks, bracket, rest))
  {
    if blanks == "" {
      assert Close(blanks, bracket, rest) == bracket + rest;
    }
  }

  lemma CommaFollows(rest: string)
    ensures Follows(Comma(rest))
  {}

  /** A value as printed: a quoted text, or a number whose text is itself. */
  ghost predicate IsValue(v: string, text: string, isString: bool) {
    if isString then v == Quoted(text) else v == text && IsLexeme(v)
  }

  ghost predicate IsLexeme(v: string) {
    exists l: Lexeme :: l.Valid() && l.Text() == v
  }

  lemma NatIsLexeme(n: nat)
    ensures IsLexeme(NatToString(n))
  {
    hide NatToString;
    var l := Lexeme(false, NatToString(n), "", "", "");
    assert "" + (NatToString(n) + ("" + "")) == NatToString(n);
    assert l.Valid() && l.Text() == NatToString(n);
  }

  lemma DoubleIsLexeme(d: Number)
    ensures IsLexeme(FormatDouble(d))
  {
    hide FormOf, Round6;
    assert FormOf(Round6(d)).Valid();
  }

  lemma ValueScanned(data: string, p: nat, v: string, text: string, isString: bool, rest: string)
    requires At(data, p, v + rest) && IsValue(v, text, isString) && Follows(rest)
    ensures p <= |data| && ScanValue(data, p) == ValueScan(true, text, isString, p + |v|)
    ensures At(data, p + |v|, rest)
  {
    hide At, StringScan, ScanNumber, Escape, SkipBlanks;
    AtSplit(data, p, v, rest);
    AtChar(data, p + |v|, rest, 0);
    if isString {
      QuotedScan(data, p, text, rest);
      NoBlanks(data, p);
    } else {
      var l: Lexeme :| l.Valid() && l.Text() == v;
      NumberStart(data, p, l);
      NoBlanks(data, p);
      ScanLexeme(data, p, l);
    }
  }

  lemma NumberStart(data: string, p: nat, l: Lexeme)
    requires l.Valid() && At(data, p, l.Text())
    ensures p < |data| && (data[p] == '-' || IsDigit(data[p]))
  {
    AtChar(data, p, l.Text(), 0);
  }

  lemma AfterComma(data: string, q: nat, rest: string)
    requires At(data, q, Comma(rest))
    ensures AfterItem(data, q) == q + 1 && At(data, q + 1, rest)
  {
    hide At, SkipBlanks;
    AtSplit(data, q, ",", rest);
    AtChar(data, q, ",", 0);
    NoBlanks(data, q);
  }

  /** In front of a closing bracket there is nothing but blanks. */
  lemma AtClose(data: string, q: nat, blanks: string, bracket: string, rest: string)
    requires At(data, q, Close(blanks, bracket, rest)) && Blank(blanks) && (bracket == "}" || bracket == "]")
    ensures var e := q + |blanks|;
      && e < |data| && data[e] == bracket[0]
      && SkipBlanks(data, q) == e && SkipBlanks(data, e) == e && AfterItem(data, q) == e
      && At(data, e + 1, rest)
  {
    hide At, SkipBlanks, Blank;
    var e := q + |blanks|;
    AtSplit(data, q, blanks, bracket + rest);
    AtSplit(data, e, bracket, rest);
    AtChar(data, e, bracket, 0);
    BlanksEnd(data, q, blanks);
    NoBlanks(data, e);
  }

  lemma MembersEnd(data: string, q: nat, blanks: string, rest: string)
    requires At(data, q, Close(blanks, "}", rest)) && Blank(blanks)
    ensures var e := q + |blanks| + 1;
      NextMember(data, q) == End(e) && NextMember(data, AfterItem(data, q)) == End(e) && At(data, e, rest)
  {
    hide At, SkipBlanks, AfterItem;
    AtClose(data, q, blanks, "}", rest);
  }

  lemma OpenBrace(data: string, p: nat, rest: string)
    requires At(data, p, "{" + rest)
    ensures p < |data| && data[p] == '{' && Consume(data, p, '{') == Some(p + 1) && At(data, p + 1, rest)
  {
    hide At, SkipBlanks;
    AtSplit(data, p, "{", rest);
    AtChar(data, p, "{", 0);
    NoBlanks(data, p);
  }

  /** A printed member, up to the text behind its value. */
  lemma EntryScanned(data: string, p: nat, blanks: string, k: string, v: string, text: string, isString: bool,
          rest: string)
    requires At(data, p, Entry(blanks, k, v, rest)) && Blank(blanks) && Plain(k)
    requires IsValue(v, text, isString) && Follows(rest)
    ensures var q := p + |blanks| + |Key(k)|;
      && NextMember(data, p) == Member(k, q) && q <= |data|
      && ScanValue(data, q) == ValueScan(true, text, isString, q + |v|)
      && At(data, q + |v|, rest)
  {
    hide At, NextMember, ScanValue, IsValue, Follows, Key, Plain, Blank;
    KeyRead(data, p, blanks, k, v + rest);
    ValueScanned(data, p + |blanks| + |Key(k)|, v, text, isString, rest);
  }

  // ----- What the reader makes of printed records -----

  /** The outcome of reading a printed record. */
  datatype Reread<+T> = Back(value: T) | Unreadable | Crash

  /** A printed condition: the printer drops the fields not in use, a number keeps six digits, and the
      number of a quoted literal is derived again - which may throw. */
  function RereadCondition(c: RuleCondition): Option<RuleCondition> {
    if c.valueInputType != UnknownInput then
      Some(c.(valueString := "", valueNumber := ZERO, valueIsString := false))
    else if c.valueIsString then
      match LiteralNumber(c.inputType, c.valueString, true)
      case None => None
      case Some(n) => Some(c.(valueInputAddress := 0, valueNumber := n))
    else
      Some(c.(valueInputAddress := 0, valueString := "", valueNumber := Round6(c.valueNumber)))
  }

  /** Where a member loop continues behind a member that is stored, or that it throws. */
  lemma ConditionEntry(data: string, p: nat, blanks: string, k: string, v: string, text: string, isString: bool,
          rest: string, c: RuleCondition)
    requires At(data, p, Entry(blanks, k, v, rest)) && Blank(blanks) && Plain(k)
    requires IsValue(v, text, isString) && Follows(rest) && ConditionKeyOf(k) != OtherConditionKey
    ensures var q := p + |blanks| + |Key(k)| + |v|;
      && At(data, q, rest)
      && ConditionMembers(data, p, c) ==
         match SetConditionMember(c, ConditionKeyOf(k), text, isString)
         case None => Thrown
         case Some(c') => ConditionMembers(data, AfterItem(data, q), c')
  {
    hide At, NextMember, ScanValue, IsValue, Follows, Plain, Blank, ConditionKeyOf, SetConditionMember, AfterItem,
        Entry, Key;
    EntryScanned(data, p, blanks, k, v, text, isString, rest);
  }

  /** The same when a comma and another member follow. */
  lemma ConditionStep(data: string, p: nat, blanks: string, k: string, v: string, text: string, isString: bool,
          rest: string, c: RuleCondition, c': RuleCondition)
    returns (q: nat)
    requires At(data, p, Entry(blanks, k, v, Comma(rest))) && Blank(blanks) && Plain(k)
    requires IsValue(v, text, isString) && ConditionKeyOf(k) != OtherConditionKey
    requires SetConditionMember(c, ConditionKeyOf(k), text, isString) == Some(c')
    ensures At(data, q, rest) && ConditionMembers(data, p, c) == ConditionMembers(data, q, c')
  {
    hide At, Follows, Plain, Blank, ConditionKeyOf, SetConditionMember, AfterItem, IsValue, Entry, ConditionMembers;
    CommaFollows(rest);
    ConditionEntry(data, p, blanks, k, v, text, isString, Comma(rest), c);
    AfterComma(data, p + |blanks| + |Key(k)| + |v|, rest);
    q := p + |blanks| + |Key(k)| + |v| + 1;
  }

  /** The same when the closing brace follows. */
  lemma ConditionLast(data: string, p: nat, blanks: string, k: string, v: string, text: string, isString: bool,
          end: string, rest: string, c: RuleCondition)
    returns (q: nat)
    requires At(data, p, Entry(blanks, k, v, Close(end, "}", rest))) && Blank(blanks) && Blank(end) && Plain(k)
    requires IsValue(v, text, isString) && ConditionKeyOf(k) != OtherConditionKey
    ensures At(data, q, rest)
    ensures ConditionMembers(data, p, c) ==
      match SetConditionMember(c, ConditionKeyOf(k), text, isString)
      case None => Thrown
      case Some(c') => Ok(c', q)
  {
    hide At, Follows, Plain, Blank, ConditionKeyOf, SetConditionMember, AfterItem, IsValue, Entry, Close, NextMember;
    var at := p + |blanks| + |Key(k)| + |v|;
    ClosesFollow(end, "}", rest);
    ConditionEntry(data, p, blanks, k, v, text, isString, Close(end, "}", rest), c);
    MembersEnd(data, at, end, rest);
    q := at + |end| + 1;
  }

  /** Unsigned numbers come back. */
  lemma Uint32Back(n: uint32)
    ensures ToUint32(NatToString(n)) == Some(n)
  {
    hide NatToString, Stoul;
    StoulOfNumeral(n);
  }

  lemma ConditionRead(data: string, p: nat, l: Layout, c: RuleCondition, rest: string) returns (q: nat)
    requires At(data, p, ConditionText(l, c, rest)) && Blank(l.inner) && Blank(l.innerEnd)
    ensures At(data, q, rest)
    ensures ReadCondition(data, p) == match RereadCondition(c) case None => Thrown case Some(c') => Ok(c', q)
  {
    hide At, Plain, Blank, ConditionKeyOf, Entry, Close, NatToString, Quoted, ConditionMembers, Comma,
        ParseConditionInputType, ParseConditionOperator, FormatDouble, LiteralNumber, ToUint32, IsLexeme,
        ComparedText;
    PlainConditionKeys();
    ConditionKeys();
    var close := Close(l.innerEnd, "}", rest);
    var t3 := ComparedText(l, c, close);
    var t2 := Entry(l.inner, "operator", Quoted(OperatorName(c.op)), Comma(t3));
    var t1 := Entry(l.inner, "inputAddress", NatToString(c.inputAddress), Comma(t2));
    var t0 := Entry(l.inner, "inputType", Quoted(InputTypeName(c.inputType)), Comma(t1));
    OpenBrace(data, p, t0);
    InputTypeNames(c.inputType);
    OperatorNames(c.op);
    Uint32Back(c.inputAddress);
    NatIsLexeme(c.inputAddress);
    var c1 := NEW_CONDITION.(inputType := c.inputType);
    var c2 := c1.(inputAddress := c.inputAddress);
    var c3 := c2.(op := c.op);
    var q0 := ConditionStep(data, p + 1, l.inner, "inputType", Quoted(InputTypeName(c.inputType)),
        InputTypeName(c.inputType), true, t1, NEW_CONDITION, c1);
    var q1 := ConditionStep(data, q0, l.inner, "inputAddress", NatToString(c.inputAddress),
        NatToString(c.inputAddress), false, t2, c1, c2);
    var q2 := ConditionStep(data, q1, l.inner, "operator", Quoted(OperatorName(c.op)), OperatorName(c.op), true,
        t3, c2, c3);
    q := ComparedRead(data, q2, l, c, rest, c3);
  }

  lemma ComparedRead(data: string, p: nat, l: Layout, c: RuleCondition, rest: string, c3: RuleCondition)
    returns (q: nat)
    requires At(data, p, ComparedText(l, c, Close(l.innerEnd, "}", rest))) && Blank(l.inner) && Blank(l.innerEnd)
    requires c3 == NEW_CONDITION.(inputType := c.inputType, inputAddress := c.inputAddress, op := c.op)
    ensures At(data, q, rest)
    ensures ConditionMembers(data, p, c3) == match RereadCondition(c) case None => Thrown case Some(c') => Ok(c', q)
  {
    hide At, Plain, Blank, ConditionKeyOf, Entry, Close, NatToString, Quoted, ConditionMembers, Comma,
        ParseConditionInputType, FormatDouble, ToUint32, IsLexeme, TimeStringToSeconds, Stod, Round6;
    PlainConditionKeys();
    ConditionKeys();
    var close := Close(l.innerEnd, "}", rest);
    if c.valueInputType != UnknownInput {
      InputTypeNames(c.valueInputType);
      Uint32Back(c.valueInputAddress);
      NatIsLexeme(c.valueInputAddress);
      var c4 := c3.(valueInputType := c.valueInputType);
      var t4 := Entry(l.inner, "valueAddress", NatToString(c.valueInputAddress), close);
      var q3 := ConditionStep(data, p, l.inner, "valueType", Quoted(InputTypeName(c.valueInputType)),
          InputTypeName(c.valueInputType), true, t4, c3, c4);
      q := ConditionLast(data, q3, l.inner, "valueAddress", NatToString(c.valueInputAddress),
          NatToString(c.valueInputAddress), false, l.innerEnd, rest, c4);
    } else if c.valueIsString {
      q := ConditionLast(data, p, l.inner, "value", Quoted(c.valueString), c.valueString, true, l.innerEnd, rest, c3);
    } else {
      StodOfPrinted(c.valueNumber);
      DoubleIsLexeme(c.valueNumber);
      q := ConditionLast(data, p, l.inner, "value", FormatDouble(c.valueNumber), FormatDouble(c.valueNumber),
          false, l.innerEnd, rest, c3);
    }
  }

  // ----- Commands -----

  /** Text the reader takes for one number when it stands unquoted. */
  predicate NumberLexeme(d: string) {
    d != "" && d[0] != '.' && ScanNumber(d, 0) == Scan(true, d, |d|)
  }

  /** A printed command: only unquoted data can be lost, and then the whole file is. */
  function RereadCommand(l: Layout, c: RuleCommand): Reread<RuleCommand> {
    if c.data != "" && PrintedBare(l, c) && !NumberLexeme(c.data) then Unreadable else Back(c)
  }

  /** Scanning `d` inside a text is scanning `d` alone when no number could go on behind it. */
  lemma {:induction false} DigitsShift(data: string, q: nat, d: string, i: nat)
    requires At(data, q, d) && i <= |d| && NoMoreDigits(data, q + |d|)
    ensures SkipDigits(data, q + i) == q + SkipDigits(d, i)
    decreases |d| - i
  {
    hide At;
    if i < |d| {
      AtChar(data, q, d, i);
      DigitsShift(data, q, d, i + 1);
    }
  }

  lemma NumberShift(data: string, q: nat, d: string)
    requires At(data, q, d) && Numeric(d) && d != ""
    requires q + |d| < |data| && !NumericChar(data[q + |d|]) && !ExponentMark(data, q + |d|)
    ensures q <= |data| && var s := ScanNumber(d, 0); ScanNumber(data, q) == Scan(s.ok, s.text, q + s.pos)
  {
    hide At, SkipDigits, SkipSign, SkipFraction, AllDigits, Numeric, ExponentMark, ScanNumber;
    var p1 := SkipSign(d, 0);
    SignShift(data, q, d);
    DigitsShift(data, q, d, p1);
    FractionShift(data, q, d, SkipDigits(d, p1));
    NoExponentInside(data, q, d, MantissaEnd(d, 0));
    PlainIs(d, 0);
    AtInside(data, q, d);
    PlainIs(data, q);
    AtPrefix(data, q, d, MantissaEnd(d, 0));
  }

  lemma SignShift(data: string, q: nat, d: string)
    requires At(data, q, d) && d != ""
    ensures SkipSign(data, q) == q + SkipSign(d, 0)
  {
    hide At;
    AtChar(data, q, d, 0);
  }

  lemma AtPrefix(data: string, q: nat, d: string, i: nat)
    requires At(data, q, d) && i <= |d|
    ensures data[q..q + i] == d[0..i]
  {
    assert data[q..q + |d|][..i] == data[q..q + i];
  }

  lemma FractionShift(data: string, q: nat, d: string, i: nat)
    requires At(data, q, d) && i <= |d|
    requires q + |d| < |data| && !NumericChar(data[q + |d|])
    ensures SkipFraction(data, q + i) == q + SkipFraction(d, i)
  {
    hide At, SkipDigits;
    if i < |d| {
      AtChar(data, q, d, i);
      DigitsShift(data, q, d, i + 1);
    }
  }

  lemma NoExponentInside(data: string, q: nat, d: string, i: nat)
    requires At(data, q, d) && i <= |d| && Numeric(d) && !ExponentMark(data, q + |d|)
    ensures !ExponentMark(d, i) && !ExponentMark(data, q + i)
  {
    hide At;
    if i < |d| {
      AtChar(data, q, d, i);
      assert NumericChar(d[i]);
    }
  }

  /** Unquoted data that is no number stops the reader: either at once, or at the place where the
      number it did find ends and neither a comma nor a brace nor a name follows. */
  lemma BareScanned(data: string, q: nat, d: string, rest: string)
    requires At(data, q, d + rest) && Numeric(d) && d != "" && Follows(rest)
    ensures q <= |data| && var v := ScanValue(data, q);
      && (NumberLexeme(d) ==> v == ValueScan(true, d, false, q + |d|))
      && (!NumberLexeme(d) && v.ok ==> NextMember(data, AfterItem(data, v.pos)) == Malformed)
    ensures At(data, q + |d|, rest)
  {
    hide At, ScanNumber, SkipBlanks, StringScan;
    AtSplit(data, q, d, rest);
    AtChar(data, q + |d|, rest, 0);
    AtChar(data, q, d, 0);
    assert NumericChar(d[0]);
    NoBlanks(data, q);
    NumberShift(data, q, d);
    var s := ScanNumber(d, 0);
    if d[0] == '.' {
      NoLiteral(data, q);
    } else if s.ok && s.pos < |d| {
      AtChar(data, q, d, s.pos);
      assert NumericChar(d[s.pos]);
      NoBlanks(data, q + s.pos);
      NotAString(data, q + s.pos);
    } else if s.ok {
      ScannedWhole(d);
    }
  }

  lemma ScannedWhole(d: string)
    requires ScanNumber(d, 0).ok && ScanNumber(d, 0).pos == |d|
    ensures ScanNumber(d, 0).text == d
  {
    assert d[0..|d|] == d;
  }

  lemma NoLiteral(data: string, q: nat)
    requires q < |data| && data[q] == '.'
    ensures !At(data, q, "true") && !At(data, q, "false") && !At(data, q, "null")
  {
    hide At;
    if At(data, q, "true") { AtChar(data, q, "true", 0); }
    if At(data, q, "false") { AtChar(data, q, "false", 0); }
    if At(data, q, "null") { AtChar(data, q, "null", 0); }
  }

  lemma NotAString(data: string, p: nat)
    requires p < |data| && data[p] != '"' && !IsSpace(data[p])
    ensures !StringScan(data, p).ok
  {}

  lemma CommandEntry(data: string, p: nat, blanks: string, k: string, v: string, text: string, isString: bool,
          rest: string, c: RuleCommand)
    requires At(data, p, Entry(blanks, k, v, rest)) && Blank(blanks) && Plain(k)
    requires IsValue(v, text, isString) && Follows(rest) && CommandKeyOf(k) != OtherCommandKey
    ensures var q := p + |blanks| + |Key(k)| + |v|;
      && At(data, q, rest)
      && CommandMembers(data, p, c) ==
         match SetCommandMember(c, CommandKeyOf(k), text)
         case None => Thrown
         case Some(c') => CommandMembers(data, AfterItem(data, q), c')
  {
    hide At, NextMember, ScanValue, IsValue, Follows, Plain, Blank, CommandKeyOf, SetCommandMember, AfterItem,
        Entry, Key;
    EntryScanned(data, p, blanks, k, v, text, isString, rest);
  }

  lemma CommandRead(data: string, p: nat, l: Layout, c: RuleCommand, rest: string) returns (q: nat)
    requires At(data, p, CommandText(l, c, rest)) && Blank(l.inner) && Blank(l.innerEnd)
    ensures RereadCommand(l, c).Back? ==> At(data, q, rest) && ReadCommand(data, p) == Ok(c, q)
    ensures !RereadCommand(l, c).Back? ==> ReadCommand(data, p) == Rejected
  {
    hide At, Plain, Blank, CommandKeyOf, Entry, Close, Quoted, CommandMembers, Comma, ParseCommandType,
        RereadCommand, CommandDataText;
    PlainCommandKeys();
    CommandKeys();
    CommandTypeNames(c.kind);
    var close := Close(l.innerEnd, "}", rest);
    var t := CommandDataText(l, c, close);
    var name := CommandTypeName(c.kind);
    OpenBrace(data, p, Entry(l.inner, "type", Quoted(name), t));
    CommandDataFollows(l, c, rest);
    CommandEntry(data, p + 1, l.inner, "type", Quoted(name), name, true, t, NEW_COMMAND);
    q := CommandDataRead(data, p + 1 + |l.inner| + |Key("type")| + |Quoted(name)|, l, c, rest);
  }

  lemma CommandDataFollows(l: Layout, c: RuleCommand, rest: string)
    requires Blank(l.innerEnd)
    ensures Follows(CommandDataText(l, c, Close(l.innerEnd, "}", rest)))
    ensures Follows(CommandAddressText(l, c, Close(l.innerEnd, "}", rest)))
  {
    hide Close, Entry, Comma, Follows;
    var close := Close(l.innerEnd, "}", rest);
    ClosesFollow(l.innerEnd, "}", rest);
    CommaFollows(close);
    CommaFollows(Entry(l.inner, "address", NatToString(c.address), close));
    CommaFollows(Entry(l.inner, "data", DataText(l, c), CommandAddressText(l, c, close)));
  }

  lemma CommandDataRead(data: string, p: nat, l: Layout, c: RuleCommand, rest: string) returns (q: nat)
    requires At(data, p, CommandDataText(l, c, Close(l.innerEnd, "}", rest))) && Blank(l.inner) && Blank(l.innerEnd)
    ensures var r := CommandMembers(data, AfterItem(data, p), NEW_COMMAND.(kind := c.kind));
      && (RereadCommand(l, c).Back? ==> At(data, q, rest) && r == Ok(c, q))
      && (!RereadCommand(l, c).Back? ==> r == Rejected)
  {
    hide At, Plain, Blank, Entry, Close, Quoted, CommandMembers, Comma, NumberLexeme, PrintedBare,
        CommandAddressText, AfterItem;
    var close := Close(l.innerEnd, "}", rest);
    var c1 := NEW_COMMAND.(kind := c.kind);
    if c.data != "" {
      AfterComma(data, p, Entry(l.inner, "data", DataText(l, c), CommandAddressText(l, c, close)));
      q := DataRead(data, p + 1, l, c, rest, c1);
    } else {
      if c.address == 0 && l.looseComma {
        AfterComma(data, p, close);
        MembersEnd(data, p + 1, l.innerEnd, rest);
        q := p + 1 + |l.innerEnd| + 1;
        EmptyMembers(data, p + 1, c1);
      } else {
        AddressFollowsKind(l, c, close);
        q := AddressRead(data, p, l, c, rest, c1);
      }
    }
  }

  lemma AddressFollowsKind(l: Layout, c: RuleCommand, close: string)
    requires c.data == "" && (c.address > 0 || !l.looseComma)
    ensures CommandDataText(l, c, close) == CommandAddressText(l, c, close)
  {}

  lemma EmptyMembers(data: string, p: nat, c: RuleCommand)
    requires NextMember(data, p).End?
    ensures CommandMembers(data, p, c) == Ok(c, NextMember(data, p).pos)
  {}

  lemma AddressRead(data: string, p: nat, l: Layout, c: RuleCommand, rest: string, c1: RuleCommand) returns (q: nat)
    requires At(data, p, CommandAddressText(l, c, Close(l.innerEnd, "}", rest))) && Blank(l.inner) && Blank(l.innerEnd)
    requires c1 == c.(address := 0)
    ensures At(data, q, rest) && CommandMembers(data, AfterItem(data, p), c1) == Ok(c, q)
  {
    hide At, Plain, Blank, Entry, Close, CommandMembers, Comma, AfterItem, NatToString, IsLexeme, ToUint32,
        CommandKeyOf, NextMember, Follows;
    PlainCommandKeys();
    CommandKeys();
    var close := Close(l.innerEnd, "}", rest);
    if c.address > 0 {
      var text := NatToString(c.address);
      AfterComma(data, p, Entry(l.inner, "address", text, close));
      ClosesFollow(l.innerEnd, "}", rest);
      NatIsLexeme(c.address);
      Uint32Back(c.address);
      CommandEntry(data, p + 1, l.inner, "address", text, text, false, close, c1);
      var at := p + 1 + |l.inner| + |Key("address")| + |text|;
      MembersEnd(data, at, l.innerEnd, rest);
      EmptyMembers(data, AfterItem(data, at), c);
      q := at + |l.innerEnd| + 1;
    } else {
      MembersEnd(data, p, l.innerEnd, rest);
      EmptyMembers(data, AfterItem(data, p), c);
      q := p + |l.innerEnd| + 1;
    }
  }

  lemma DataRead(data: string, p: nat, l: Layout, c: RuleCommand, rest: string, c1: RuleCommand) returns (q: nat)
    requires c.data != "" && c1 == NEW_COMMAND.(kind := c.kind)
    requires At(data, p, Entry(l.inner, "data", DataText(l, c), CommandAddressText(l, c, Close(l.innerEnd, "}", rest))))
    requires Blank(l.inner) && Blank(l.innerEnd)
    ensures var r := CommandMembers(data, p, c1);
      && (RereadCommand(l, c).Back? ==> At(data, q, rest) && r == Ok(c, q))
      && (!RereadCommand(l, c).Back? ==> r == Rejected)
  {
    hide At, Plain, Blank, Entry, Close, CommandMembers, AfterItem, IsLexeme, CommandKeyOf, NextMember, Follows,
        CommandAddressText, NumberLexeme, Quoted, Numeric;
    PlainCommandKeys();
    CommandKeys();
    CommandDataFollows(l, c, rest);
    var after := CommandAddressText(l, c, Close(l.innerEnd, "}", rest));
    var at := p + |l.inner| + |Key("data")| + |DataText(l, c)|;
    var c2 := c1.(data := c.data);
    if PrintedBare(l, c) {
      BareDataRead(data, p, l, c, after, c1);
      if NumberLexeme(c.data) {
        q := AddressRead(data, at, l, c, rest, c2);
      } else {
        q := 0;
      }
    } else {
      CommandEntry(data, p, l.inner, "data", Quoted(c.data), c.data, true, after, c1);
      q := AddressRead(data, at, l, c, rest, c2);
    }
  }

  lemma BareDataRead(data: string, p: nat, l: Layout, c: RuleCommand, after: string, c1: RuleCommand)
    requires c.data != "" && Numeric(c.data) && Follows(after)
    requires At(data, p, Entry(l.inner, "data", c.data, after)) && Blank(l.inner)
    ensures var q := p + |l.inner| + |Key("data")| + |c.data|;
      && At(data, q, after)
      && (NumberLexeme(c.data) ==>
            CommandMembers(data, p, c1) == CommandMembers(data, AfterItem(data, q), c1.(data := c.data)))
      && (!NumberLexeme(c.data) ==> CommandMembers(data, p, c1) == Rejected)
  {
    hide At, Plain, Blank, AfterItem, NextMember, Follows, NumberLexeme, ScanValue, Key, CommandKeyOf;
    PlainCommandKeys();
    CommandKeys();
    KeyRead(data, p, l.inner, "data", c.data + after);
    BareScanned(data, p + |l.inner| + |Key("data")|, c.data, after);
  }

  // ----- Lists and rules -----

  function RereadConditions(cs: seq<RuleCondition>): Option<seq<RuleCondition>> {
    if cs == [] then Some([])
    else
      match RereadCondition(cs[0])
      case None => None
      case Some(c) =>
        match RereadConditions(cs[1..])
        case None => None
        case Some(more) => Some([c] + more)
  }

  function RereadCommands(l: Layout, cs: seq<RuleCommand>): Reread<seq<RuleCommand>> {
    if cs == [] then Back([])
    else
      match RereadCommand(l, cs[0])
      case Unreadable => Unreadable
      case Crash => Crash
      case Back(c) =>
        match RereadCommands(l, cs[1..])
        case Unreadable => Unreadable
        case Crash => Crash
        case Back(more) => Back([c] + more)
  }

  function RereadRule(l: Layout, r: Rule): Reread<Rule> {
    match RereadConditions(r.conditions)
    case None => Crash
    case Some(cs) =>
      match RereadCommands(l, r.commands)
      case Unreadable => Unreadable
      case Crash => Crash
      case Back(commands) => Back(r.(conditions := cs, commands := commands))
  }

  /** The rules read from the print of `rules`, when `before` are already there. */
  function RereadRules(l: Layout, rules: seq<Rule>, before: seq<Rule>): Reread<seq<Rule>>
    decreases |rules|
  {
    if rules == [] then Back(before)
    else
      match RereadRule(l, rules[0])
      case Unreadable => Unreadable
      case Crash => Crash
      case Back(r) => RereadRules(l, rules[1..], before + [WithId(before, r)])
  }

  /** What the outcome means for the parse result. */
  ghost predicate Outcome<T>(r: Reread<T>, parsed: Parsed<T>) {
    match r
    case Back(v) => parsed.Ok? && parsed.value == v
    case Unreadable => parsed == Rejected
    case Crash => parsed == Thrown
  }

  /** An item stands behind blanks. */
  lemma ItemStart(data: string, p: nat, blanks: string, text: string)
    requires At(data, p, blanks + text) && Blank(blanks) && text != "" && text[0] == '{'
    ensures var q := p + |blanks|;
      SkipBlanks(data, p) == q && q < |data| && data[q] == '{' && At(data, q, text)
  {
    hide At, Blank, SkipBlanks;
    AtSplit(data, p, blanks, text);
    AtChar(data, p + |blanks|, text, 0);
    BlanksEnd(data, p, blanks);
  }

  /** Behind an item the loop is where the rest of the list is, comma or not. */
  lemma AfterSeparator(data: string, q: nat, more: bool, rest: string)
    requires At(data, q, Separator(more, rest))
    ensures var q' := if more then q + 1 else q;
      At(data, q', rest) && (more ==> AfterItem(data, q) == q')
  {
    hide At, AfterItem, Comma;
    if more {
      AfterComma(data, q, rest);
    }
  }

  lemma {:induction false} ConditionItemsRead(data: string, p: nat, l: Layout, cs: seq<RuleCondition>, rest: string,
          items: seq<RuleCondition>)
    returns (q: nat)
    requires At(data, p, ConditionsText(l, cs, rest)) && BlankLayout(l)
    ensures match RereadConditions(cs)
            case None => ConditionItems(data, p, items) == Thrown
            case Some(v) => At(data, q, rest) && ConditionItems(data, p, items) == Ok(items + v, q)
    decreases |cs|
  {
    hide At, Blank, Close, ConditionText, ReadCondition, AfterItem, SkipBlanks, RereadCondition, Separator;
    if cs == [] {
      AtClose(data, p, l.itemsEnd, "]", rest);
      q := p + |l.itemsEnd| + 1;
      assert items + [] == items;
    } else {
      var tail := ConditionsText(l, cs[1..], rest);
      var after := Separator(|cs| > 1, tail);
      BraceFirst(l, cs[0], after);
      ItemStart(data, p, l.item, ConditionText(l, cs[0], after));
      var q1 := ConditionRead(data, p + |l.item|, l, cs[0], after);
      q := q1;
      if RereadCondition(cs[0]).Some? {
        var c := RereadCondition(cs[0]).value;
        AfterSeparator(data, q1, |cs| > 1, tail);
        if |cs| > 1 {
          q := ConditionItemsRead(data, q1 + 1, l, cs[1..], rest, items + [c]);
        } else {
          AtClose(data, q1, l.itemsEnd, "]", rest);
          q := q1 + |l.itemsEnd| + 1;
          assert cs[1..] == [] && [c] + [] == [c];
        }
        match RereadConditions(cs[1..])
        case None =>
        case Some(v) => assert (items + [c]) + v == items + ([c] + v);
      }
    }
  }

  lemma BraceFirst(l: Layout, c: RuleCondition, rest: string)
    ensures ConditionText(l, c, rest) != "" && ConditionText(l, c, rest)[0] == '{'
  {}

  lemma CommandBraceFirst(l: Layout, c: RuleCommand, rest: string)
    ensures CommandText(l, c, rest) != "" && CommandText(l, c, rest)[0] == '{'
  {}

  lemma RuleBraceFirst(l: Layout, r: Rule, rest: string)
    ensures RuleText(l, r, rest) != "" && RuleText(l, r, rest)[0] == '{'
  {}

  lemma LastCommandItem(data: string, p: nat, q: nat, items: seq<RuleCommand>)
    requires SkipBlanks(data, p) == q && q < |data| && data[q] == ']'
    ensures CommandItems(data, p, items) == Ok(items, q + 1)
  {
    hide ReadCommand, AfterItem, SkipBlanks;
  }

  lemma NextCommandItem(data: string, p: nat, q: nat, items: seq<RuleCommand>)
    requires SkipBlanks(data, p) == q && q < |data| && data[q] == '{'
    ensures var read := ReadCommand(data, q);
      CommandItems(data, p, items) ==
      if read.Ok? then CommandItems(data, AfterItem(data, read.pos), items + [read.value])
      else if read.Thrown? then Thrown
      else Rejected
  {
    hide ReadCommand, AfterItem, SkipBlanks;
  }

  lemma NextCommandText(l: Layout, cs: seq<RuleCommand>, rest: string)
    ensures cs == [] ==> CommandsText(l, cs, rest) == Close(l.itemsEnd, "]", rest)
    ensures cs != [] ==>
      CommandsText(l, cs, rest) ==
      l.item + CommandText(l, cs[0], Separator(|cs| > 1, CommandsText(l, cs[1..], rest)))
  {
    hide CommandText, Close, Separator;
  }

  lemma NextRereadCommand(l: Layout, cs: seq<RuleCommand>)
    ensures cs == [] ==> RereadCommands(l, cs) == Back([])
    ensures cs != [] && !RereadCommand(l, cs[0]).Back? ==> RereadCommands(l, cs) == Unreadable
    ensures cs != [] && RereadCommand(l, cs[0]).Back? ==>
      var more := RereadCommands(l, cs[1..]);
      RereadCommands(l, cs) == if more.Back? then Back([cs[0]] + more.value) else more
  {
    hide PrintedBare, NumberLexeme;
  }

  lemma RegroupCommands(items: seq<RuleCommand>, cs: seq<RuleCommand>)
    requires cs != []
    ensures (items + [cs[0]]) + cs[1..] == items + cs && [cs[0]] + cs[1..] == cs && items + [] == items
    ensures |cs| == 1 ==> cs[1..] == [] && items + [cs[0]] == items + cs
  {}

  lemma {:induction false} CommandItemsRead(data: string, p: nat, l: Layout, cs: seq<RuleCommand>, rest: string,
          items: seq<RuleCommand>)
    returns (q: nat)
    requires At(data, p, CommandsText(l, cs, rest)) && BlankLayout(l)
    ensures match RereadCommands(l, cs)
            case Unreadable => CommandItems(data, p, items) == Rejected
            case Crash => false
            case Back(v) => v == cs && At(data, q, rest) && CommandItems(data, p, items) == Ok(items + v, q)
    decreases |cs|
  {
    hide At, Blank, Close, CommandText, CommandsText, ReadCommand, AfterItem, SkipBlanks, Separator, CommandItems;
    hide RereadCommands, RereadCommand;
    NextCommandText(l, cs, rest);
    NextRereadCommand(l, cs);
    if cs == [] {
      AtClose(data, p, l.itemsEnd, "]", rest);
      LastCommandItem(data, p, p + |l.itemsEnd|, items);
      q := p + |l.itemsEnd| + 1;
      assert items + [] == items;
    } else {
      var tail := CommandsText(l, cs[1..], rest);
      var after := Separator(|cs| > 1, tail);
      CommandBraceFirst(l, cs[0], after);
      ItemStart(data, p, l.item, CommandText(l, cs[0], after));
      NextCommandItem(data, p, p + |l.item|, items);
      var q1 := CommandRead(data, p + |l.item|, l, cs[0], after);
      q := q1;
      if RereadCommand(l, cs[0]).Back? {
        RegroupCommands(items, cs);
        AfterSeparator(data, q1, |cs| > 1, tail);
        if |cs| > 1 {
          q := CommandItemsRead(data, q1 + 1, l, cs[1..], rest, items + [cs[0]]);
        } else {
          NextCommandText(l, cs[1..], rest);
          NextRereadCommand(l, cs[1..]);
          AtClose(data, q1, l.itemsEnd, "]", rest);
          LastCommandItem(data, AfterItem(data, q1), q1 + |l.itemsEnd|, items + [cs[0]]);
          q := q1 + |l.itemsEnd| + 1;
        }
      }
    }
  }

  // ----- The members of a rule -----

  lemma RuleStep(data: string, p: nat, blanks: string, k: string, v: string, rest: string, r: Rule)
    requires At(data, p, Entry(blanks, k, v, rest)) && Blank(blanks) && Plain(k)
    ensures var q := p + |blanks| + |Key(k)|;
      && q <= |data| && At(data, q, v + rest) && NextMember(data, p) == Member(k, q)
      && RuleMembers(data, p, r) ==
         match RuleMember(data, q, k, r)
         case Rejected => Rejected
         case Thrown => Thrown
         case Ok(r', e) => RuleMembers(data, AfterItem(data, e), r')
  {
    hide At, NextMember, RuleMember, AfterItem, Plain, Blank, Key;
    KeyRead(data, p, blanks, k, v + rest);
    AtInside(data, p + |blanks| + |Key(k)|, v + rest);
  }

  lemma BoolScanned(data: string, p: nat, b: bool, rest: string)
    requires At(data, p, BoolText(b) + rest)
    ensures p <= |data| && ScanBool(data, p) == BoolScan(true, b, p + |BoolText(b)|)
    ensures At(data, p + |BoolText(b)|, rest)
  {
    hide At, SkipBlanks;
    AtSplit(data, p, BoolText(b), rest);
    AtChar(data, p, BoolText(b), 0);
    NoBlanks(data, p);
    if !b && At(data, p, "true") {
      AtChar(data, p, "true", 0);
      assert false;
    }
  }

  lemma RuleIdRead(data: string, p: nat, l: Layout, id: uint32, rest: string, r: Rule) returns (q: nat)
    requires At(data, p, Entry(l.member, "id", NatToString(id), Comma(rest))) && Blank(l.member)
    ensures At(data, q, rest) && RuleMembers(data, p, r) == RuleMembers(data, q, r.(id := id))
  {
    hide At, NextMember, AfterItem, Plain, Blank, Key, Entry, Comma, NatToString, ToUint32, ScanValue, RuleKeyOf,
        RuleMembers, IsLexeme, Follows;
    PlainRuleKeys();
    RuleKeys();
    NatIsLexeme(id);
    Uint32Back(id);
    CommaFollows(rest);
    RuleStep(data, p, l.member, "id", NatToString(id), Comma(rest), r);
    var at := p + |l.member| + |Key("id")|;
    ValueScanned(data, at, NatToString(id), NatToString(id), false, Comma(rest));
    AfterComma(data, at + |NatToString(id)|, rest);
    q := at + |NatToString(id)| + 1;
  }

  lemma RuleEnabledRead(data: string, p: nat, l: Layout, enabled: bool, rest: string, r: Rule) returns (q: nat)
    requires At(data, p, Entry(l.member, "enabled", BoolText(enabled), Comma(rest))) && Blank(l.member)
    ensures At(data, q, rest) && RuleMembers(data, p, r) == RuleMembers(data, q, r.(enabled := enabled))
  {
    hide At, NextMember, AfterItem, Plain, Blank, Key, Entry, Comma, BoolText, ScanBool, RuleKeyOf, RuleMembers;
    PlainRuleKeys();
    RuleKeys();
    RuleStep(data, p, l.member, "enabled", BoolText(enabled), Comma(rest), r);
    var at := p + |l.member| + |Key("enabled")|;
    BoolScanned(data, at, enabled, Comma(rest));
    AfterComma(data, at + |BoolText(enabled)|, rest);
    q := at + |BoolText(enabled)| + 1;
  }

  lemma RuleNameRead(data: string, p: nat, l: Layout, name: string, rest: string, r: Rule) returns (q: nat)
    requires At(data, p, Entry(l.member, "name", Quoted(name), Comma(rest))) && Blank(l.member)
    ensures At(data, q, rest) && RuleMembers(data, p, r) == RuleMembers(data, q, r.(name := name))
  {
    hide At, NextMember, AfterItem, Plain, Blank, Key, Entry, Comma, Quoted, StringScan, RuleKeyOf, RuleMembers;
    PlainRuleKeys();
    RuleKeys();
    RuleStep(data, p, l.member, "name", Quoted(name), Comma(rest), r);
    var at := p + |l.member| + |Key("name")|;
    QuotedScan(data, at, name, Comma(rest));
    AfterComma(data, at + |Quoted(name)|, rest);
    q := at + |Quoted(name)| + 1;
  }

  lemma OpenBracket(data: string, p: nat, rest: string)
    requires At(data, p, "[" + rest)
    ensures Consume(data, p, '[') == Some(p + 1) && At(data, p + 1, rest)
  {
    hide At, SkipBlanks;
    AtSplit(data, p, "[", rest);
    AtChar(data, p, "[", 0);
    NoBlanks(data, p);
  }

  lemma RuleConditionsRead(data: string, p: nat, l: Layout, cs: seq<RuleCondition>, rest: string, r: Rule)
    returns (q: nat)
    requires At(data, p, Entry(l.member, "conditions", "[", ConditionsText(l, cs, Comma(rest)))) && BlankLayout(l)
    ensures match RereadConditions(cs)
            case None => RuleMembers(data, p, r) == Thrown
            case Some(v) => At(data, q, rest) && RuleMembers(data, p, r) == RuleMembers(data, q, r.(conditions := v))
  {
    hide At, NextMember, AfterItem, Plain, Blank, Key, Entry, Comma, RuleKeyOf, RuleMembers, ConditionItems,
        ConditionsText, Consume, RereadConditions;
    PlainRuleKeys();
    RuleKeys();
    RuleStep(data, p, l.member, "conditions", "[", ConditionsText(l, cs, Comma(rest)), r);
    var at := p + |l.member| + |Key("conditions")|;
    OpenBracket(data, at, ConditionsText(l, cs, Comma(rest)));
    q := ConditionItemsRead(data, at + 1, l, cs, Comma(rest), []);
    match RereadConditions(cs)
    case None =>
    case Some(v) =>
      assert [] + v == v;
      AfterComma(data, q, rest);
      q := q + 1;
  }

  lemma RuleCommandsRead(data: string, p: nat, l: Layout, cs: seq<RuleCommand>, rest: string, r: Rule) returns (q: nat)
    requires BlankLayout(l)
    requires At(data, p, Entry(l.member, "commands", "[", CommandsText(l, cs, Close(l.ruleEnd, "}", rest))))
    ensures match RereadCommands(l, cs)
            case Unreadable => RuleMembers(data, p, r) == Rejected
            case Crash => false
            case Back(v) => v == cs && At(data, q, rest) && RuleMembers(data, p, r) == Ok(r.(commands := cs), q)
  {
    hide At, NextMember, AfterItem, Plain, Blank, Key, Entry, Close, RuleKeyOf, RuleMembers, CommandItems,
        CommandsText, Consume, RereadCommands;
    PlainRuleKeys();
    RuleKeys();
    var close := Close(l.ruleEnd, "}", rest);
    RuleStep(data, p, l.member, "commands", "[", CommandsText(l, cs, close), r);
    var at := p + |l.member| + |Key("commands")|;
    OpenBracket(data, at, CommandsText(l, cs, close));
    q := CommandItemsRead(data, at + 1, l, cs, close, []);
    if RereadCommands(l, cs).Back? {
      assert [] + cs == cs;
      MembersEnd(data, q, l.ruleEnd, rest);
      EmptyRuleMembers(data, AfterItem(data, q), r.(commands := cs));
      q := q + |l.ruleEnd| + 1;
    }
  }

  lemma EmptyRuleMembers(data: string, p: nat, r: Rule)
    requires NextMember(data, p).End?
    ensures RuleMembers(data, p, r) == Ok(r, NextMember(data, p).pos)
  {}

  lemma RuleRead(data: string, p: nat, l: Layout, r: Rule, rest: string) returns (q: nat)
    requires At(data, p, RuleText(l, r, rest)) && BlankLayout(l)
    ensures Outcome(RereadRule(l, r), ReadRule(data, p))
    ensures RereadRule(l, r).Back? ==> At(data, q, rest) && ReadRule(data, p).pos == q
  {
    hide At, Blank, Entry, Close, Comma, RuleMembers, ConditionsText, CommandsText, Consume, RereadCommands,
        RereadConditions, NatToString, Quoted, BoolText;
    var commands := CommandsText(l, r.commands, Close(l.ruleEnd, "}", rest));
    var t4 := Entry(l.member, "commands", "[", commands);
    var t3 := Entry(l.member, "conditions", "[", ConditionsText(l, r.conditions, Comma(t4)));
    var t2 := Entry(l.member, "name", Quoted(r.name), Comma(t3));
    var t1 := Entry(l.member, "enabled", BoolText(r.enabled), Comma(t2));
    var r1 := NEW_RULE.(id := r.id);
    var r2 := r1.(enabled := r.enabled);
    var r3 := r2.(name := r.name);
    OpenBrace(data, p, Entry(l.member, "id", NatToString(r.id), Comma(t1)));
    var q1 := RuleIdRead(data, p + 1, l, r.id, t1, NEW_RULE);
    var q2 := RuleEnabledRead(data, q1, l, r.enabled, t2, r1);
    var q3 := RuleNameRead(data, q2, l, r.name, t3, r2);
    q := RuleConditionsRead(data, q3, l, r.conditions, t4, r3);
    if RereadConditions(r.conditions).Some? {
      q := RuleCommandsRead(data, q, l, r.commands, rest, r3.(conditions := RereadConditions(r.conditions).value));
    }
  }

  lemma {:induction false} RuleItemsRead(data: string, p: nat, l: Layout, rules: seq<Rule>, before: seq<Rule>)
    requires At(data, p, RuleItemsText(l, rules)) && BlankLayout(l)
    ensures Outcome(RereadRules(l, rules, before), RuleItems(data, p, before))
    decreases |rules|
  {
    hide At, Blank, Close, RuleText, ReadRule, AfterItem, SkipBlanks, Separator, RereadRule, WithId;
    if rules == [] {
      AtClose(data, p, l.rulesEnd, "]", l.tail);
    } else {
      var tail := RuleItemsText(l, rules[1..]);
      var after := Separator(|rules| > 1, tail);
      RuleBraceFirst(l, rules[0], after);
      ItemStart(data, p, l.rule, RuleText(l, rules[0], after));
      var q := RuleRead(data, p + |l.rule|, l, rules[0], after);
      if RereadRule(l, rules[0]).Back? {
        var r := WithId(before, RereadRule(l, rules[0]).value);
        AfterSeparator(data, q, |rules| > 1, tail);
        if |rules| > 1 {
          RuleItemsRead(data, q + 1, l, rules[1..], before + [r]);
        } else {
          AtClose(data, q, l.rulesEnd, "]", l.tail);
        }
      }
    }
  }

  /** What reading the print of any rule list gives, for any layout: `RereadRules`. */
  lemma RereadIsRead(l: Layout, rules: seq<Rule>)
    requires BlankLayout(l)
    ensures Outcome(RereadRules(l, rules, []), ReadRules(RulesText(l, rules)))
  {
    hide At, Consume, RuleItems, RereadRules, RuleItemsText, BlankLayout;
    var data := RulesText(l, rules);
    AtWhole(data);
    OpenBracket(data, 0, RuleItemsText(l, rules));
    RuleItemsRead(data, 1, l, rules, []);
  }
}
