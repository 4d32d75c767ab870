/** The two printers of the rule list: `saveRules` (server/rules.hpp, lines 618-740) and `rulesToJson`
    (server/server_command.hpp, lines 22-134). They write the same members in the same order; a
    Layout holds what differs: the blanks, whether numeric command data goes unquoted, and whether a
    comma is left behind the last member. */
module RulePrinter {
  import opened Text
  import opened Numbers
  import opened Rules

  datatype Layout = Layout(
    rule: string, member: string, ruleEnd: string,
    item: string, inner: string, innerEnd: string, itemsEnd: string,
    rulesEnd: string, tail: string,
    bareData: bool, looseComma: bool)

  const FILE_LAYOUT: Layout :=
    Layout("\n  ", "\n    ", "\n  ", "\n      ", "\n        ", "\n      ", "\n    ", "\n", "\n", true, true)

  const HTTP_LAYOUT: Layout := Layout("", "", "", "", "", "", "", "", "", false, false)

  predicate BlankLayout(l: Layout) {
    Blank(l.rule) && Blank(l.member) && Blank(l.ruleEnd) && Blank(l.item) && Blank(l.inner) && Blank(l.innerEnd) &&
    Blank(l.itemsEnd) && Blank(l.rulesEnd)
  }

  function EscapeChar(c: char): string {
    match c
    case '"' => "\\\""
    case '\\' => "\\\\"
    case '\U{0008}' => "\\b"
    case '\U{000C}' => "\\f"
    case '\n' => "\\n"
    case '\r' => "\\r"
    case '\t' => "\\t"
    case _ => [c]
  }

  function Escape(s: string): string {
    if s == "" then "" else EscapeChar(s[0]) + Escape(s[1..])
  }

  function Quoted(s: string): string {
    "\"" + (Escape(s) + "\"")
  }

  function Key(k: string): string {
    "\"" + (k + "\":")
  }

  function BoolText(b: bool): string {
    if b then "true" else "false"
  }

  // The texts below end with the text that follows them, `rest`.

  function Entry(blanks: string, key: string, value: string, rest: string): string {
    blanks + (Key(key) + (value + rest))
  }

  function Comma(rest: string): string { "," + rest }

  function Close(blanks: string, bracket: string, rest: string): string {
    blanks + (bracket + rest)
  }

  function LiteralText(c: RuleCondition): string {
    if c.valueIsString then Quoted(c.valueString) else FormatDouble(c.valueNumber)
  }

  function ConditionText(l: Layout, c: RuleCondition, rest: string): string {
    var close := Close(l.innerEnd, "}", rest);
    "{" +
    Entry(l.inner, "inputType", Quoted(InputTypeName(c.inputType)), Comma(
    Entry(l.inner, "inputAddress", NatToString(c.inputAddress), Comma(
    Entry(l.inner, "operator", Quoted(OperatorName(c.op)), Comma(
    ComparedText(l, c, close)))))))
  }

  /** What the input is compared with: another input or a literal. */
  function ComparedText(l: Layout, c: RuleCondition, close: string): string {
    if c.valueInputType != UnknownInput then
      Entry(l.inner, "valueType", Quoted(InputTypeName(c.valueInputType)), Comma(
      Entry(l.inner, "valueAddress", NatToString(c.valueInputAddress), close)))
    else
      Entry(l.inner, "value", LiteralText(c), close)
  }

  predicate NumericChar(c: char) {
    c == '.' || c == '-' || c == '+' || IsDigit(c)
  }

  predicate Numeric(s: string) {
    forall i :: 0 <= i < |s| ==> NumericChar(s[i])
  }

  predicate PrintedBare(l: Layout, c: RuleCommand) {
    l.bareData && c.kind != Send && c.kind != System && Numeric(c.data)
  }

  function DataText(l: Layout, c: RuleCommand): string {
    if PrintedBare(l, c) then c.data else Quoted(c.data)
  }

  function CommandText(l: Layout, c: RuleCommand, rest: string): string {
    "{" + Entry(l.inner, "type", Quoted(CommandTypeName(c.kind)), CommandDataText(l, c, Close(l.innerEnd, "}", rest)))
  }

  function CommandDataText(l: Layout, c: RuleCommand, close: string): string {
    if c.data != "" then
      Comma(Entry(l.inner, "data", DataText(l, c), CommandAddressText(l, c, close)))
    else if c.address > 0 then
      CommandAddressText(l, c, close)
    else if l.looseComma then
      Comma(close)
    else
      close
  }

  function CommandAddressText(l: Layout, c: RuleCommand, close: string): string {
    if c.address > 0 then Comma(Entry(l.inner, "address", NatToString(c.address), close)) else close
  }

  /** The comma between items. */
  function Separator(more: bool, rest: string): string {
    if more then Comma(rest) else rest
  }

  function ConditionsText(l: Layout, cs: seq<RuleCondition>, rest: string): string {
    if cs == [] then Close(l.itemsEnd, "]", rest)
    else l.item + ConditionText(l, cs[0], Separator(|cs| > 1, ConditionsText(l, cs[1..], rest)))
  }

  function CommandsText(l: Layout, cs: seq<RuleCommand>, rest: string): string {
    if cs == [] then Close(l.itemsEnd, "]", rest)
    else l.item + CommandText(l, cs[0], Separator(|cs| > 1, CommandsText(l, cs[1..], rest)))
  }

  function RuleText(l: Layout, r: Rule, rest: string): string {
    var commands := CommandsText(l, r.commands, Close(l.ruleEnd, "}", rest));
    var conditions := ConditionsText(l, r.conditions, Comma(Entry(l.member, "commands", "[", commands)));
    "{" +
    Entry(l.member, "id", NatToString(r.id), Comma(
    Entry(l.member, "enabled", BoolText(r.enabled), Comma(
    Entry(l.member, "name", Quoted(r.name), Comma(
    Entry(l.member, "conditions", "[", conditions)))))))
  }

  function RuleItemsText(l: Layout, rules: seq<Rule>): string {
    if rules == [] then Close(l.rulesEnd, "]", l.tail)
    else l.rule + RuleText(l, rules[0], Separator(|rules| > 1, RuleItemsText(l, rules[1..])))
  }

  function RulesText(l: Layout, rules: seq<Rule>): string {
    "[" + RuleItemsText(l, rules)
  }

  // ----- The printers -----

  method JsonEscape(input: string) returns (output: string)
    ensures output == Escape(input)
  {
    output := "";
    for i := 0 to |input|
      invariant output + Escape(input[i..]) == Escape(input)
    {
      assert input[i..][1..] == input[i + 1..];
      ghost var more := Escape(input[i + 1..]);
      assert output + (EscapeChar(input[i]) + more) == (output + EscapeChar(input[i])) + more;
      match input[i] {
        case '"' => output := output + "\\\"";
        case '\\' => output := output + "\\\\";
        case '\U{0008}' => output := output + "\\b";
        case '\U{000C}' => output := output + "\\f";
        case '\n' => output := output + "\\n";
        case '\r' => output := output + "\\r";
        case '\t' => output := output + "\\t";
        case c => output := output + [c];
      }
    }
    assert input[|input|..] == "";
    assert output + "" == output;
  }

  /** `written` and then `rest` make the whole text. */
  ghost predicate Completes(written: string, rest: string, whole: string) {
    written + rest == whole
  }

  lemma Written(written: string, piece: string, rest: string, whole: string)
    requires Completes(written, piece + rest, whole)
    ensures Completes(written + piece, rest, whole)
  {
    assert written + (piece + rest) == (written + piece) + rest;
  }

  method WriteEntry(out0: string, blanks: string, key: string, value: string, ghost rest: string, ghost whole: string)
    returns (out: string)
    requires Completes(out0, Entry(blanks, key, value, rest), whole)
    ensures Completes(out, rest, whole)
  {
    hide Completes, Key;
    out := out0 + blanks;
    Written(out0, blanks, Key(key) + (value + rest), whole);
    Written(out, Key(key), value + rest, whole);
    out := out + Key(key);
    Written(out, value, rest, whole);
    out := out + value;
  }

  method WriteClose(out0: string, blanks: string, bracket: string, ghost rest: string, ghost whole: string)
    returns (out: string)
    requires Completes(out0, Close(blanks, bracket, rest), whole)
    ensures Completes(out, rest, whole)
  {
    hide Completes;
    out := out0 + blanks;
    Written(out0, blanks, bracket + rest, whole);
    Written(out, bracket, rest, whole);
    out := out + bracket;
  }

  method WriteComma(out0: string, more: bool, ghost rest: string, ghost whole: string) returns (out: string)
    requires Completes(out0, Separator(more, rest), whole)
    ensures Completes(out, rest, whole)
  {
    out := out0;
    if more {
      Written(out, ",", rest, whole);
      out := out + ",";
    }
  }

  method QuotedText(s: string) returns (out: string)
    ensures out == Quoted(s)
  {
    out := JsonEscape(s);
    assert "\"" + (out + "\"") == ("\"" + out) + "\"";
    out := "\"" + out + "\"";
  }

  method WriteCondition(l: Layout, c: RuleCondition, out0: string, ghost rest: string, ghost whole: string)
    returns (out: string)
    requires Completes(out0, ConditionText(l, c, rest), whole)
    ensures Completes(out, rest, whole)
  {
    hide Completes, Entry, Close, NatToString, Quoted, FormatDouble;
    ghost var close := Close(l.innerEnd, "}", rest);
    ghost var t3 := ComparedText(l, c, close);
    ghost var t2 := Entry(l.inner, "operator", Quoted(OperatorName(c.op)), Comma(t3));
    ghost var t1 := Entry(l.inner, "inputAddress", NatToString(c.inputAddress), Comma(t2));
    ghost var t0 := Entry(l.inner, "inputType", Quoted(InputTypeName(c.inputType)), Comma(t1));
    Written(out0, "{", t0, whole);
    out := out0 + "{";
    var text := QuotedText(InputTypeName(c.inputType));
    out := WriteEntry(out, l.inner, "inputType", text, Comma(t1), whole);
    out := WriteComma(out, true, t1, whole);
    out := WriteEntry(out, l.inner, "inputAddress", NatToString(c.inputAddress), Comma(t2), whole);
    out := WriteComma(out, true, t2, whole);
    text := QuotedText(OperatorName(c.op));
    out := WriteEntry(out, l.inner, "operator", text, Comma(t3), whole);
    out := WriteComma(out, true, t3, whole);
    if c.valueInputType != UnknownInput {
      ghost var t4 := Entry(l.inner, "valueAddress", NatToString(c.valueInputAddress), close);
      text := QuotedText(InputTypeName(c.valueInputType));
      out := WriteEntry(out, l.inner, "valueType", text, Comma(t4), whole);
      out := WriteComma(out, true, t4, whole);
      out := WriteEntry(out, l.inner, "valueAddress", NatToString(c.valueInputAddress), close, whole);
    } else {
      if c.valueIsString {
        text := QuotedText(c.valueString);
      } else {
        text := FormatDouble(c.valueNumber);
      }
      out := WriteEntry(out, l.inner, "value", text, close, whole);
    }
    out := WriteClose(out, l.innerEnd, "}", rest, whole);
  }

  /** Whether the data goes unquoted; the loop looks for a character that no number has. */
  method NumericData(l: Layout, c: RuleCommand) returns (bare: bool)
    ensures bare == PrintedBare(l, c)
  {
    if !l.bareData || c.kind == Send || c.kind == System {
      return false;
    }
    for i := 0 to |c.data|
      invariant forall k :: 0 <= k < i ==> NumericChar(c.data[k])
    {
      if !NumericChar(c.data[i]) {
        return false;
      }
    }
    return true;
  }

  method WriteCommand(l: Layout, c: RuleCommand, out0: string, ghost rest: string, ghost whole: string)
    returns (out: string)
    requires Completes(out0, CommandText(l, c, rest), whole)
    ensures Completes(out, rest, whole)
  {
    hide Completes, Entry, Close, NatToString, Quoted, PrintedBare;
    ghost var close := Close(l.innerEnd, "}", rest);
    ghost var t1 := CommandAddressText(l, c, close);
    ghost var t0 := CommandDataText(l, c, close);
    Written(out0, "{", Entry(l.inner, "type", Quoted(CommandTypeName(c.kind)), t0), whole);
    out := out0 + "{";
    var text := QuotedText(CommandTypeName(c.kind));
    out := WriteEntry(out, l.inner, "type", text, t0, whole);
    if c.data != "" {
      var bare := NumericData(l, c);
      if bare {
        text := c.data;
      } else {
        text := QuotedText(c.data);
      }
      out := WriteComma(out, true, Entry(l.inner, "data", text, t1), whole);
      out := WriteEntry(out, l.inner, "data", text, t1, whole);
    }
    if c.address > 0 {
      text := NatToString(c.address);
      out := WriteComma(out, true, Entry(l.inner, "address", text, close), whole);
      out := WriteEntry(out, l.inner, "address", text, close, whole);
    } else {
      out := WriteComma(out, c.data == "" && l.looseComma, close, whole);
    }
    out := WriteClose(out, l.innerEnd, "}", rest, whole);
  }

  method WriteConditions(l: Layout, cs: seq<RuleCondition>, out0: string, ghost rest: string, ghost whole: string)
    returns (out: string)
    requires Completes(out0, ConditionsText(l, cs, rest), whole)
    ensures Completes(out, rest, whole)
  {
    hide Completes, ConditionText, Close;
    out := out0;
    assert cs[0..] == cs;
    for i := 0 to |cs|
      invariant Completes(out, ConditionsText(l, cs[i..], rest), whole)
    {
      assert cs[i..][1..] == cs[i + 1..];
      ghost var more := ConditionsText(l, cs[i + 1..], rest);
      Written(out, l.item, ConditionText(l, cs[i], Separator(|cs[i..]| > 1, more)), whole);
      out := out + l.item;
      out := WriteCondition(l, cs[i], out, Separator(|cs[i..]| > 1, more), whole);
      out := WriteComma(out, i + 1 < |cs|, more, whole);
    }
    out := WriteClose(out, l.itemsEnd, "]", rest, whole);
  }

  method WriteCommands(l: Layout, cs: seq<RuleCommand>, out0: string, ghost rest: string, ghost whole: string)
    returns (out: string)
    requires Completes(out0, CommandsText(l, cs, rest), whole)
    ensures Completes(out, rest, whole)
  {
    hide Completes, CommandText, Close;
    out := out0;
    assert cs[0..] == cs;
    for i := 0 to |cs|
      invariant Completes(out, CommandsText(l, cs[i..], rest), whole)
    {
      assert cs[i..][1..] == cs[i + 1..];
      ghost var more := CommandsText(l, cs[i + 1..], rest);
      Written(out, l.item, CommandText(l, cs[i], Separator(|cs[i..]| > 1, more)), whole);
      out := out + l.item;
      out := WriteCommand(l, cs[i], out, Separator(|cs[i..]| > 1, more), whole);
      out := WriteComma(out, i + 1 < |cs|, more, whole);
    }
    out := WriteClose(out, l.itemsEnd, "]", rest, whole);
  }

  method WriteRule(l: Layout, r: Rule, out0: string, ghost rest: string, ghost whole: string) returns (out: string)
    requires Completes(out0, RuleText(l, r, rest), whole)
    ensures Completes(out, rest, whole)
  {
    hide Completes, Entry, Close, NatToString, Quoted, ConditionsText, CommandsText;
    ghost var close := Close(l.ruleEnd, "}", rest);
    ghost var commands := CommandsText(l, r.commands, close);
    ghost var t4 := Entry(l.member, "commands", "[", commands);
    ghost var conditions := ConditionsText(l, r.conditions, Comma(t4));
    ghost var t3 := Entry(l.member, "conditions", "[", conditions);
    ghost var t2 := Entry(l.member, "name", Quoted(r.name), Comma(t3));
    ghost var t1 := Entry(l.member, "enabled", BoolText(r.enabled), Comma(t2));
    Written(out0, "{", Entry(l.member, "id", NatToString(r.id), Comma(t1)), whole);
    out := out0 + "{";
    out := WriteEntry(out, l.member, "id", NatToString(r.id), Comma(t1), whole);
    out := WriteComma(out, true, t1, whole);
    out := WriteEntry(out, l.member, "enabled", BoolText(r.enabled), Comma(t2), whole);
    out := WriteComma(out, true, t2, whole);
    var text := QuotedText(r.name);
    out := WriteEntry(out, l.member, "name", text, Comma(t3), whole);
    out := WriteComma(out, true, t3, whole);
    out := WriteEntry(out, l.member, "conditions", "[", conditions, whole);
    out := WriteConditions(l, r.conditions, out, Comma(t4), whole);
    out := WriteComma(out, true, t4, whole);
    out := WriteEntry(out, l.member, "commands", "[", commands, whole);
    out := WriteCommands(l, r.commands, out, close, whole);
    out := WriteClose(out, l.ruleEnd, "}", rest, whole);
  }

  lemma Begun(piece: string, rest: string)
    ensures Completes(piece, rest, piece + rest)
  {}

  lemma Finished(written: string, rest: string, whole: string)
    requires Completes(written, rest, whole)
    ensures written + rest == whole
  {}

  method PrintRules(l: Layout, rules: seq<Rule>) returns (out: string)
    ensures out == RulesText(l, rules)
  {
    hide RuleText, Close, Completes, Separator;
    ghost var whole := RulesText(l, rules);
    out := "[";
    Begun(out, RuleItemsText(l, rules));
    assert rules[0..] == rules;
    for i := 0 to |rules|
      invariant Completes(out, RuleItemsText(l, rules[i..]), whole)
    {
      assert rules[i..][1..] == rules[i + 1..];
      ghost var more := RuleItemsText(l, rules[i + 1..]);
      Written(out, l.rule, RuleText(l, rules[i], Separator(|rules[i..]| > 1, more)), whole);
      out := out + l.rule;
      out := WriteRule(l, rules[i], out, Separator(|rules[i..]| > 1, more), whole);
      out := WriteComma(out, i + 1 < |rules|, more, whole);
    }
    out := WriteClose(out, l.rulesEnd, "]", l.tail, whole);
    Finished(out, l.tail, whole);
    out := out + l.tail;
  }
}
