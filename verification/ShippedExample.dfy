/** The text of server/rules.json.example, and that it reads as the two rules of module Hysteresis. It is
    written by hand: other blanks than the printers', and a threshold of 27.0. */
module ShippedExample {
  import opened Options
  import opened Text
  import opened Numbers
  import opened JsonReader
  import opened Rules
  import opened RuleReader
  import opened RulePrinter
  import opened RoundTrip
  import opened RulesFile
  import opened RuleEngine
  import opened RuleRuns
  import opened Hysteresis

  const LOW: Number := Decimal(false, 245, -1)
  const HIGH: Number := Decimal(false, 27, 0)

  const MEMBER := "\n        "

  /** The layout of the commands, the only lists printed with more than one item. */
  const HAND_LAYOUT: Layout :=
    Layout("\n    ", MEMBER, "\n    ", "\n            ", " ", " ", "\n        ", "\n", "\n", true, false)

  // ----- The text, from the end of each piece on: `rest` is what follows -----

  function InQuotes(s: string): string {
    "\"" + (s + "\"")
  }

  function ConditionShown(op: string, value: string, rest: string): string {
    "{" +
    Entry(" ", "inputType", InQuotes("register"), Comma(
    Entry(" ", "inputAddress", "15206", Comma(
    Entry(" ", "operator", op, Comma(
    Entry(" ", "value", value, Close(" ", "}", rest))))))))
  }

  function CommandShown(kind: string, data: string, rest: string): string {
    "{" + Entry(" ", "type", kind, Comma(Entry(" ", "data", data, Close(" ", "}", rest))))
  }

  function CommandsShown(send: string, off: string, on: string, rest: string): string {
    "\n            " + CommandShown(InQuotes("send"), send, Comma(
    "\n            " + CommandShown(InQuotes("disable"), off, Comma(
    "\n            " + CommandShown(InQuotes("enable"), on, Close("\n        ", "]", rest))))))
  }

  function RuleShown(id: string, enabled: string, name: string, op: string, value: string, send: string, off: string,
          on: string, rest: string): string {
    "{" +
    Entry(MEMBER, "id", id, Comma(
    Entry(MEMBER, "enabled", enabled, Comma(
    Entry(MEMBER, "name", name, Comma(
    Entry(MEMBER, "conditions", " [",
      "\n            " + ConditionShown(op, value, Close("\n        ", "]", Comma(
    Entry(MEMBER, "commands", " [", CommandsShown(send, off, on, Close("\n    ", "}", rest)))))))))))))
  }

  /** server/rules.json.example */
  function ShippedText(): string {
    "[" + ("\n    " + RuleShown("1", "true", InQuotes("pool pump disabler"), InQuotes("lessEqual"), "24.5",
      InQuotes("RELAY 3 OFF"), "1", "2", Comma(
    "\n    " + RuleShown("2", "false", InQuotes("pool pump enabler"), InQuotes("greaterEqual"), "27.0",
      InQuotes("RELAY 3 ON"), "2", "1", Close("\n", "]", "\n")))))
  }

  // ----- Its literals -----

  predicate Simple(s: string) {
    forall i :: 0 <= i < |s| ==> EscapeChar(s[i]) == [s[i]]
  }

  lemma {:induction false} SimpleEscape(s: string)
    requires Simple(s)
    ensures Escape(s) == s
    decreases |s|
  {
    if s != "" {
      SimpleEscape(s[1..]);
    }
  }

  lemma QuotedIs(s: string)
    requires Simple(s)
    ensures Quoted(s) == InQuotes(s)
  {
    hide Escape;
    SimpleEscape(s);
  }

  lemma Texts()
    ensures Quoted("register") == InQuotes("register") && Quoted("lessEqual") == InQuotes("lessEqual")
    ensures Quoted("greaterEqual") == InQuotes("greaterEqual")
  {
    hide Escape, Quoted, InQuotes;
    QuotedIs("register");
    QuotedIs("lessEqual");
    QuotedIs("greaterEqual");
  }

  lemma RuleTexts()
    ensures Quoted("pool pump disabler") == InQuotes("pool pump disabler")
    ensures Quoted("pool pump enabler") == InQuotes("pool pump enabler")
  {
    hide Escape, Quoted, InQuotes;
    QuotedIs("pool pump disabler");
    QuotedIs("pool pump enabler");
  }

  lemma CommandTexts()
    ensures Quoted("send") == InQuotes("send") && Quoted("disable") == InQuotes("disable")
    ensures Quoted("enable") == InQuotes("enable")
    ensures Quoted(OFF_COMMAND) == InQuotes(OFF_COMMAND) && Quoted(ON_COMMAND) == InQuotes(ON_COMMAND)
  {
    hide Escape, Quoted, InQuotes;
    QuotedIs("send");
    QuotedIs("disable");
    QuotedIs("enable");
    QuotedIs(OFF_COMMAND);
    QuotedIs(ON_COMMAND);
  }

  lemma Numerals()
    ensures NatToString(1) == "1" && NatToString(2) == "2" && NatToString(15206) == "15206"
  {
    assert NatToString(15) == "15";
    assert NatToString(152) == "152";
    assert NatToString(1520) == "1520";
  }

  /** Three digits, the last of them behind the point. */
  function Tenths(a: nat, b: nat, c: nat): Lexeme
    requires a < 10 && b < 10 && c < 10
  {
    Lexeme(false, [DigitChar(a), DigitChar(b)], [DigitChar(c)], "", "")
  }

  lemma ThreeDigits(a: nat, b: nat, c: nat)
    requires a < 10 && b < 10 && c < 10
    ensures DigitsValue([DigitChar(a), DigitChar(b), DigitChar(c)]) == 100 * a + 10 * b + c
  {
    hide DigitsValue;
    var s := [DigitChar(a), DigitChar(b), DigitChar(c)];
    assert s[..2] == [DigitChar(a), DigitChar(b)] && s[..2][..1] == [DigitChar(a)] && s[..2][..1][..0] == "";
    LastDigit(s);
    LastDigit(s[..2]);
    LastDigit(s[..2][..1]);
    NoDigits("");
  }

  lemma TenthsValue(a: nat, b: nat, c: nat)
    requires a < 10 && b < 10 && c < 10
    ensures Tenths(a, b, c).Valid() && Tenths(a, b, c).Text() == [DigitChar(a), DigitChar(b), '.', DigitChar(c)]
    ensures Tenths(a, b, c).Value() == Normalize(false, 100 * a + 10 * b + c, -1)
  {
    hide Normalize, DigitsValue, DigitChar;
    ThreeDigits(a, b, c);
    NoDigits("");
    assert [DigitChar(a), DigitChar(b)] + [DigitChar(c)] == [DigitChar(a), DigitChar(b), DigitChar(c)];
  }

  lemma Thresholds()
    ensures Stod("24.5") == Some(LOW) && IsLexeme("24.5")
    ensures Stod("27.0") == Some(HIGH) && IsLexeme("27.0")
  {
    hide Stod, Lexeme.Text, Lexeme.Value, Lexeme.Valid;
    TenthsValue(2, 4, 5);
    StodLexeme(Tenths(2, 4, 5));
    TenthsValue(2, 7, 0);
    StodLexeme(Tenths(2, 7, 0));
  }

  // ----- Reading it -----

  lemma ConditionShownRead(data: string, p: nat, op: ConditionOperator, value: string, d: Number, rest: string)
    returns (q: nat)
    requires At(data, p, ConditionShown(Quoted(OperatorName(op)), value, rest))
    requires Stod(value) == Some(d) && IsLexeme(value)
    ensures At(data, q, rest) && ReadCondition(data, p) == Ok(Threshold(op, d), q)
  {
    hide At, Plain, ConditionKeyOf, Entry, Close, NatToString, Quoted, ConditionMembers, Comma,
        ParseConditionInputType, ParseConditionOperator, Stod, ToUint32, IsLexeme;
    PlainConditionKeys();
    ConditionKeys();
    Texts();
    Numerals();
    var t3 := Entry(" ", "value", value, Close(" ", "}", rest));
    var t2 := Entry(" ", "operator", Quoted(OperatorName(op)), Comma(t3));
    var t1 := Entry(" ", "inputAddress", "15206", Comma(t2));
    OpenBrace(data, p, Entry(" ", "inputType", InQuotes("register"), Comma(t1)));
    InputTypeNames(Register);
    OperatorNames(op);
    Uint32Back(15206);
    NatIsLexeme(15206);
    var c1 := NEW_CONDITION.(inputType := Register);
    var c2 := c1.(inputAddress := 15206);
    var c3 := c2.(op := op);
    var kind := InQuotes("register");
    var q0 := ConditionStep(data, p + 1, " ", "inputType", kind, "register", true, t1, NEW_CONDITION, c1);
    var q1 := ConditionStep(data, q0, " ", "inputAddress", "15206", "15206", false, t2, c1, c2);
    var q2 := ConditionStep(data, q1, " ", "operator", Quoted(OperatorName(op)), OperatorName(op), true, t3, c2, c3);
    q := ConditionLast(data, q2, " ", "value", value, value, false, " ", rest, c3);
  }

  /** A list opened behind a blank. */
  lemma OpenList(data: string, p: nat, rest: string)
    requires At(data, p, " [" + rest)
    ensures Consume(data, p, '[') == Some(p + 2) && At(data, p + 2, rest)
  {
    hide At, SkipBlanks;
    assert " [" + rest == " " + ("[" + rest);
    AtSplit(data, p, " ", "[" + rest);
    AtSplit(data, p + 1, "[", rest);
    AtChar(data, p + 1, "[", 0);
    BlanksEnd(data, p, " ");
  }

  /** The commands of the example: sending, disabling oneself and enabling the other rule. */
  function Commands(send: string, off: string, on: string): seq<RuleCommand> {
    [RuleCommand(Send, send, 0), RuleCommand(Disable, off, 0), RuleCommand(Enable, on, 0)]
  }

  lemma CommandIs(c: RuleCommand, rest: string)
    requires c.address == 0 && c.data != ""
    ensures CommandText(HAND_LAYOUT, c, rest) ==
      CommandShown(Quoted(CommandTypeName(c.kind)), DataText(HAND_LAYOUT, c), rest)
  {
    hide Entry, Quoted, DataText, CommandTypeName, Close, Comma;
  }

  lemma CommandsAre(send: string, off: string, on: string, rest: string)
    requires send != "" && off != "" && on != "" && Numeric(off) && Numeric(on)
    ensures CommandsText(HAND_LAYOUT, Commands(send, off, on), rest) == CommandsShown(Quoted(send), off, on, rest)
  {
    hide CommandText, CommandShown, Quoted, Numeric, Close;
    CommandTexts();
    var cs := Commands(send, off, on);
    var t2 := Close("\n        ", "]", rest);
    var t1 := Comma("\n            " + CommandText(HAND_LAYOUT, cs[2], t2));
    assert cs[1..][1..] == [cs[2]] && [cs[2]][1..] == [];
    CommandIs(cs[2], t2);
    CommandIs(cs[1], t1);
    CommandIs(cs[0], Comma("\n            " + CommandText(HAND_LAYOUT, cs[1], t1)));
    assert CommandsText(HAND_LAYOUT, [], rest) == t2;
    assert CommandsText(HAND_LAYOUT, [cs[2]], rest) == "\n            " + CommandText(HAND_LAYOUT, cs[2], t2);
    assert CommandsText(HAND_LAYOUT, cs[1..], rest) == "\n            " + CommandText(HAND_LAYOUT, cs[1], t1);
  }

  lemma OneCondition(data: string, p: nat, op: ConditionOperator, value: string, d: Number, rest: string)
    returns (q: nat)
    requires Stod(value) == Some(d) && IsLexeme(value)
    requires At(data, p,
      "\n            " + ConditionShown(Quoted(OperatorName(op)), value, Close("\n        ", "]", rest)))
    ensures At(data, q, rest) && ConditionItems(data, p, []) == Ok([Threshold(op, d)], q)
  {
    hide At, Close, ReadCondition, AfterItem, SkipBlanks, Stod, IsLexeme, Quoted, Entry;
    var close := Close("\n        ", "]", rest);
    ItemStart(data, p, "\n            ", ConditionShown(Quoted(OperatorName(op)), value, close));
    var q1 := ConditionShownRead(data, p + |"\n            "|, op, value, d, close);
    AtClose(data, q1, "\n        ", "]", rest);
    q := q1 + |"\n        "| + 1;
    assert [] + [Threshold(op, d)] == [Threshold(op, d)];
  }

  lemma ThreeCommandsRead(data: string, p: nat, send: string, off: string, on: string, rest: string) returns (q: nat)
    requires NumberLexeme(off) && NumberLexeme(on)
    requires At(data, p, CommandsText(HAND_LAYOUT, Commands(send, off, on), rest))
    ensures At(data, q, rest) && CommandItems(data, p, []) == Ok(Commands(send, off, on), q)
  {
    hide At, CommandsText, CommandItems, RereadCommands, NumberLexeme;
    var cs := Commands(send, off, on);
    CommandsKept(HAND_LAYOUT, cs);
    HandLayoutIsBlank();
    q := CommandItemsRead(data, p, HAND_LAYOUT, cs, rest, []);
    assert [] + cs == cs;
  }

  lemma HandLayoutIsBlank()
    ensures BlankLayout(HAND_LAYOUT)
  {}

  lemma ListsRead(data: string, p: nat, op: ConditionOperator, value: string, d: Number, send: string, off: string,
          on: string, rest: string, r: Rule)
    returns (q: nat)
    requires Stod(value) == Some(d) && IsLexeme(value) && NumberLexeme(off) && NumberLexeme(on)
    requires send != "" && off != "" && on != "" && Numeric(off) && Numeric(on)
    requires At(data, p, Entry(MEMBER, "conditions", " [",
      "\n            " + ConditionShown(Quoted(OperatorName(op)), value, Close("\n        ", "]", Comma(
      Entry(MEMBER, "commands", " [", CommandsShown(Quoted(send), off, on, Close("\n    ", "}", rest))))))))
    ensures At(data, q, rest)
    ensures RuleMembers(data, p, r) ==
      Ok(r.(conditions := [Threshold(op, d)], commands := Commands(send, off, on)), q)
  {
    hide At, NextMember, AfterItem, Plain, Key, Entry, Comma, RuleKeyOf, RuleMembers, ConditionItems, CommandItems,
        ConditionShown, CommandsShown, Consume, Close, Quoted, Stod, IsLexeme, NumberLexeme, Numeric, Commands;
    PlainRuleKeys();
    RuleKeys();
    var close := Close("\n    ", "}", rest);
    var commands := CommandsShown(Quoted(send), off, on, close);
    var t1 := Entry(MEMBER, "commands", " [", commands);
    var list := "\n            " + ConditionShown(Quoted(OperatorName(op)), value, Close("\n        ", "]", Comma(t1)));
    RuleStep(data, p, MEMBER, "conditions", " [", list, r);
    OpenList(data, p + |MEMBER| + |Key("conditions")|, list);
    var q0 := OneCondition(data, p + |MEMBER| + |Key("conditions")| + 2, op, value, d, Comma(t1));
    AfterComma(data, q0, t1);
    var r1 := r.(conditions := [Threshold(op, d)]);
    RuleStep(data, q0 + 1, MEMBER, "commands", " [", commands, r1);
    OpenList(data, q0 + 1 + |MEMBER| + |Key("commands")|, commands);
    CommandsAre(send, off, on, close);
    var q1 := ThreeCommandsRead(data, q0 + 1 + |MEMBER| + |Key("commands")| + 2, send, off, on, close);
    MembersEnd(data, q1, "\n    ", rest);
    EmptyRuleMembers(data, AfterItem(data, q1), r1.(commands := Commands(send, off, on)));
    q := q1 + |"\n    "| + 1;
  }

  lemma RuleShownRead(data: string, p: nat, id: uint32, enabled: bool, name: string, op: ConditionOperator,
          value: string, d: Number, send: string, off: string, on: string, rest: string)
    returns (q: nat)
    requires Stod(value) == Some(d) && IsLexeme(value) && NumberLexeme(off) && NumberLexeme(on)
    requires send != "" && off != "" && on != "" && Numeric(off) && Numeric(on)
    requires At(data, p, RuleShown(NatToString(id), BoolText(enabled), Quoted(name), Quoted(OperatorName(op)), value,
      Quoted(send), off, on, rest))
    ensures At(data, q, rest)
    ensures ReadRule(data, p) == Ok(Rule(id, enabled, name, [Threshold(op, d)], Commands(send, off, on)), q)
  {
    hide At, Entry, Close, Comma, RuleMembers, ConditionShown, CommandsShown, Consume, NatToString, Quoted, BoolText,
        Stod, IsLexeme, NumberLexeme, Numeric, OperatorName, Commands;
    HandLayoutIsBlank();
    var commands := CommandsShown(Quoted(send), off, on, Close("\n    ", "}", rest));
    var t3 := Entry(MEMBER, "conditions", " [", "\n            " + ConditionShown(Quoted(OperatorName(op)), value,
      Close("\n        ", "]", Comma(Entry(MEMBER, "commands", " [", commands)))));
    var t2 := Entry(MEMBER, "name", Quoted(name), Comma(t3));
    var t1 := Entry(MEMBER, "enabled", BoolText(enabled), Comma(t2));
    var r1 := NEW_RULE.(id := id);
    var r2 := r1.(enabled := enabled);
    OpenBrace(data, p, Entry(MEMBER, "id", NatToString(id), Comma(t1)));
    var q1 := RuleIdRead(data, p + 1, HAND_LAYOUT, id, t1, NEW_RULE);
    var q2 := RuleEnabledRead(data, q1, HAND_LAYOUT, enabled, t2, r1);
    var q3 := RuleNameRead(data, q2, HAND_LAYOUT, name, t3, r2);
    q := ListsRead(data, q3, op, value, d, send, off, on, rest, r2.(name := name));
  }

  lemma Digits()
    ensures NumberLexeme("1") && NumberLexeme("2") && Numeric("1") && Numeric("2")
  {
    hide NumberLexeme;
    IdIsLexeme("1");
    IdIsLexeme("2");
  }

  /** The shipped file reads as the two rules, with thresholds 24.5 and 27. */
  lemma ShippedTextReads()
    ensures ReadRules(ShippedText()).Ok? && ReadRules(ShippedText()).value == Example(LOW, HIGH)
  {
    hide At, RuleShown, ReadRule, Consume, Quoted, InQuotes, Stod, IsLexeme, NumberLexeme, Numeric, NatToString,
        OperatorName, AfterItem, SkipBlanks, Close;
    Texts();
    RuleTexts();
    CommandTexts();
    Numerals();
    Thresholds();
    Digits();
    Names();
    var data := ShippedText();
    var end := Close("\n", "]", "\n");
    var second := RuleShown("2", "false", InQuotes("pool pump enabler"), InQuotes("greaterEqual"), "27.0",
      InQuotes("RELAY 3 ON"), "2", "1", end);
    var first := RuleShown("1", "true", InQuotes("pool pump disabler"), InQuotes("lessEqual"), "24.5",
      InQuotes("RELAY 3 OFF"), "1", "2", Comma("\n    " + second));
    AtWhole(data);
    OpenBracket(data, 0, "\n    " + first);
    RuleShownBrace("1", "true", InQuotes("pool pump disabler"), InQuotes("lessEqual"), "24.5",
      InQuotes("RELAY 3 OFF"), "1", "2", Comma("\n    " + second));
    RuleShownBrace("2", "false", InQuotes("pool pump enabler"), InQuotes("greaterEqual"), "27.0",
      InQuotes("RELAY 3 ON"), "2", "1", end);
    ItemStart(data, 1, "\n    ", first);
    var q1 := RuleShownRead(data, 1 + |"\n    "|, 1, true, "pool pump disabler", LessEqual, "24.5", LOW,
      OFF_COMMAND, "1", "2", Comma("\n    " + second));
    AfterComma(data, q1, "\n    " + second);
    ItemStart(data, q1 + 1, "\n    ", second);
    var q2 := RuleShownRead(data, q1 + 1 + |"\n    "|, 2, false, "pool pump enabler", GreaterEqual, "27.0", HIGH,
      ON_COMMAND, "2", "1", end);
    AtClose(data, q2, "\n", "]", "\n");
  }

  lemma Names()
    ensures OperatorName(LessEqual) == "lessEqual" && OperatorName(GreaterEqual) == "greaterEqual"
    ensures BoolText(true) == "true" && BoolText(false) == "false"
  {}

  predicate Braced(s: string) {
    s != "" && s[0] == '{'
  }

  lemma RuleShownBrace(id: string, enabled: string, name: string, op: string, value: string, send: string,
          off: string, on: string, rest: string)
    ensures Braced(RuleShown(id, enabled, name, op, value, send, off, on, rest))
  {
    hide Entry, Comma, Close, ConditionShown, CommandsShown;
  }

  lemma ThresholdOrder()
    ensures ToReal(LOW) == 24.5 && ToReal(HIGH) == 27.0
  {
    NextPower(0);
    assert Pow10(1) == 10;
  }

  /** With the shipped rules file, over any readings OFF and ON strictly alternate, OFF first. */
  lemma ShippedExampleAlternates(s: Engine, writable: bool, passes: seq<Step>)
    requires s.file == Some(ShippedText()) && SentIn(s.trace) == [] && OnlyPasses(passes)
    ensures Alternating(SentIn(Run(s, [Step(LoadOp, writable)] + passes).trace), OFF_COMMAND, ON_COMMAND)
  {
    hide ShippedText, ReadRules, ToReal, SentIn, Run;
    ShippedTextReads();
    ThresholdOrder();
    ExampleAlternates(s, LOW, HIGH, writable, passes);
  }

  // ----- On the numbers in the register -----

  /** What the register of the battery voltage held last, in tenths of a volt. */
  function RawVoltage(inputs: Inputs): Option<int> {
    if 15206 in inputs.lastValues then Some(inputs.lastValues[15206]) else None
  }

  function RawVoltages(passes: seq<Step>): (r: seq<Option<int>>)
    requires OnlyPasses(passes)
    ensures |r| == |passes|
  {
    seq(|passes|, i requires 0 <= i < |passes| => RawVoltage(passes[i].op.inputs))
  }

  /** The switch in tenths of a volt: off at 245, on at 270. */
  function Switching(armed: Mode, raw: Option<int>): (Mode, seq<string>) {
    match raw
    case None => (armed, [])
    case Some(v) =>
      if armed == Off && v <= 245 then (On, ["RELAY 3 OFF"])
      else if armed == On && v >= 270 then (Off, ["RELAY 3 ON"])
      else (armed, [])
  }

  function SwitchingAll(armed: Mode, raws: seq<Option<int>>): seq<string>
    decreases |raws|
  {
    if raws == [] then []
    else
      var first := Switching(armed, raws[0]);
      first.1 + SwitchingAll(first.0, raws[1..])
  }

  lemma ReactsInTenths(armed: Mode, inputs: Inputs)
    ensures React(armed, Reading(inputs), 24.5, 27.0) == Switching(armed, RawVoltage(inputs))
  {}

  lemma {:induction false} ReactsInTenthsAll(armed: Mode, passes: seq<Step>)
    requires OnlyPasses(passes)
    ensures ReactAll(armed, Readings(passes), 24.5, 27.0).1 == SwitchingAll(armed, RawVoltages(passes))
    decreases |passes|
  {
    hide React, Reading, Switching, RawVoltage;
    if passes != [] {
      ReactsInTenths(armed, passes[0].op.inputs);
      var first := Switching(armed, RawVoltage(passes[0].op.inputs));
      assert Readings(passes)[1..] == Readings(passes[1..]) && RawVoltages(passes)[1..] == RawVoltages(passes[1..]);
      ReactsInTenthsAll(first.0, passes[1..]);
    }
  }

  /** With the shipped rules file, over any contents of the register: exactly the commands of that switch. */
  lemma ShippedExampleSwitches(s: Engine, writable: bool, passes: seq<Step>)
    requires s.file == Some(ShippedText()) && SentIn(s.trace) == [] && OnlyPasses(passes)
    ensures SentIn(Run(s, [Step(LoadOp, writable)] + passes).trace) == SwitchingAll(Off, RawVoltages(passes))
  {
    hide ShippedText, ReadRules, ToReal, SentIn, ReactAll, Load;
    ShippedTextReads();
    ThresholdOrder();
    ExampleLoads(s, LOW, HIGH);
    assert ([Step(LoadOp, writable)] + passes)[1..] == passes;
    ExampleIsHysteresis(Load(s), Off, LOW, HIGH, passes);
    ReactsInTenthsAll(Off, passes);
    var sent := SwitchingAll(Off, RawVoltages(passes));
    assert [] + sent == sent;
  }
}
