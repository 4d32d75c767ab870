/** The two rules of server/rules.json.example are a hysteresis switch. */
module Hysteresis {
  import opened Options
  import opened Text
  import opened Numbers
  import opened Rules
  import opened RuleReader
  import opened RulePrinter
  import opened RoundTrip
  import opened RulesFile
  import opened RuleEngine
  import opened RuleRuns

  const BATTERY_VOLTAGE: nat := 15206
  const OFF_COMMAND := "RELAY 3 OFF"
  const ON_COMMAND := "RELAY 3 ON"

  function Threshold(op: ConditionOperator, value: Number): RuleCondition {
    RuleCondition(Register, BATTERY_VOLTAGE, op, UnknownInput, 0, "", value, false)
  }

  function OffRule(low: Number, enabled: bool): Rule {
    Rule(1, enabled, "pool pump disabler", [Threshold(LessEqual, low)],
         [RuleCommand(Send, OFF_COMMAND, 0), RuleCommand(Disable, "1", 0), RuleCommand(Enable, "2", 0)])
  }

  function OnRule(high: Number, enabled: bool): Rule {
    Rule(2, enabled, "pool pump enabler", [Threshold(GreaterEqual, high)],
         [RuleCommand(Send, ON_COMMAND, 0), RuleCommand(Disable, "2", 0), RuleCommand(Enable, "1", 0)])
  }

  // ----- The switch, on its own -----

  /** Waiting for a low voltage to switch off, or for a high one to switch on. */
  datatype Mode = Off | On

  /** What a reading does: the next mode and the command sent, if any. A missing reading does nothing. */
  function React(armed: Mode, reading: Option<real>, low: real, high: real): (Mode, seq<string>) {
    match reading
    case None => (armed, [])
    case Some(v) =>
      if armed == Off && v <= low then (On, [OFF_COMMAND])
      else if armed == On && v >= high then (Off, [ON_COMMAND])
      else (armed, [])
  }

  function ReactAll(armed: Mode, readings: seq<Option<real>>, low: real, high: real): (Mode, seq<string>)
    decreases |readings|
  {
    if readings == [] then (armed, [])
    else
      var first := React(armed, readings[0], low, high);
      var rest := ReactAll(first.0, readings[1..], low, high);
      (rest.0, first.1 + rest.1)
  }

  predicate Alternating(sent: seq<string>, first: string, second: string)
    decreases |sent|
  {
    sent == [] || (sent[0] == first && Alternating(sent[1..], second, first))
  }

  lemma {:induction false} CommandsAlternate(armed: Mode, readings: seq<Option<real>>, low: real, high: real)
    ensures var sent := ReactAll(armed, readings, low, high).1;
      if armed == Off then Alternating(sent, OFF_COMMAND, ON_COMMAND) else Alternating(sent, ON_COMMAND, OFF_COMMAND)
    decreases |readings|
  {
    if readings != [] {
      var first := React(armed, readings[0], low, high);
      CommandsAlternate(first.0, readings[1..], low, high);
      var rest := ReactAll(first.0, readings[1..], low, high).1;
      assert first.1 == [] ==> first.1 + rest == rest;
      assert first.1 != [] ==> (first.1 + rest)[1..] == rest;
    }
  }

  // ----- The engine with the two rules -----

  function Reading(inputs: Inputs): Option<real> {
    InputValue(Register, BATTERY_VOLTAGE, map[], inputs)
  }

  /** Exactly one rule is enabled, and the enabled one is not remembered as met. */
  predicate Armed(s: Engine, armed: Mode, low: Number, high: Number) {
    && s.rules == [OffRule(low, armed == Off), OnRule(high, armed == On)]
    && !LastState(s, if armed == Off then 1 else 2)
  }

  /** The commands sent, oldest first. */
  function SentIn(trace: seq<Event>): seq<string>
    decreases |trace|
  {
    if trace == [] then []
    else SentIn(trace[..|trace| - 1]) + (if trace[|trace| - 1].Sent? then [trace[|trace| - 1].data] else [])
  }

  lemma SentAppend(trace: seq<Event>, e: Event)
    ensures SentIn(trace + [e]) == SentIn(trace) + (if e.Sent? then [e.data] else [])
  {
    assert (trace + [e])[..|trace|] == trace;
  }

  lemma ThresholdMet(op: ConditionOperator, value: Number, variables: map<uint32, real>, inputs: Inputs)
    ensures ConditionsMet([Threshold(op, value)], variables, inputs) <==>
      Reading(inputs).Some? && Compare(op, Reading(inputs).value, ToReal(value))
  {
    hide ToReal, ScaledRegisterValue;
    var cs := [Threshold(op, value)];
    assert ConditionsMet(cs, variables, inputs) <==> ConditionMet(cs[0], variables, inputs);
  }

  lemma Targets()
    ensures TargetId("1") == 1 && TargetId("2") == 2
  {
    OneDigitTarget("1");
    OneDigitTarget("2");
  }

  lemma OneDigitTarget(s: string)
    requires |s| == 1 && AllDigits(s)
    ensures TargetId(s) == DigitValue(s[0])
  {
    hide DigitsValue;
    DigitsOfOneChar(s);
    assert s[0..1] == s;
  }

  lemma DigitsOfOneChar(s: string)
    requires |s| == 1 && AllDigits(s)
    ensures DigitsValue(s) == DigitValue(s[0])
  {
    assert s[..0] == "";
  }

  /** A command that switches the rule at index `i` of the pair. */
  lemma SwitchStep(p: Progress, c: RuleCommand, id: uint32, i: nat)
    requires |p.s.rules| == 2 && p.s.rules[0].id == 1 && p.s.rules[1].id == 2
    requires (c.kind == Enable || c.kind == Disable) && TargetId(c.data) == id
    requires i < 2 && id == i + 1 && p.s.rules[i].enabled == (c.kind == Disable)
    ensures var q := Execute(p, c);
      && q.modified
      && q.s.rules == p.s.rules[i := p.s.rules[i].(enabled := c.kind == Enable)]
      && SentIn(q.s.trace) == SentIn(p.s.trace)
      && q.s.lastState == (if c.kind == Disable then p.s.lastState[id := false] else p.s.lastState)
      && q.s.variables == p.s.variables
  {
    hide TargetId, SentIn, Find;
    FindInPair(p.s.rules);
    SentAppend(p.s.trace, Switched(id, c.kind == Enable));
  }

  /** Firing: one command goes out, the rule disables itself and enables the other. */
  lemma FireSwitches(p: Progress, off: bool, low: Number, high: Number)
    requires p.s.rules == [OffRule(low, off), OnRule(high, !off)]
    ensures var rule := if off then OffRule(low, true) else OnRule(high, true);
      var q := Fire(p, rule);
      && q.modified
      && q.s.rules == [OffRule(low, !off), OnRule(high, off)]
      && SentIn(q.s.trace) == SentIn(p.s.trace) + [if off then OFF_COMMAND else ON_COMMAND]
      && q.s.lastState == p.s.lastState[if off then 1 else 2 := false]
      && q.s.variables == p.s.variables
  {
    hide TargetId, SentIn, ExecuteAll;
    var rule := if off then OffRule(low, true) else OnRule(high, true);
    var text := if off then OFF_COMMAND else ON_COMMAND;
    var p1 := Execute(p, rule.commands[0]);
    Targets();
    SentAppend(p.s.trace, Sent(text));
    ThreeCommands(p, rule.commands);
    hide Execute;
    var p2 := Execute(p1, rule.commands[1]);
    var p3 := Execute(p2, rule.commands[2]);
    SwitchStep(p1, rule.commands[1], if off then 1 else 2, if off then 0 else 1);
    assert p2.s.rules == [OffRule(low, false), OnRule(high, false)];
    SwitchStep(p2, rule.commands[2], if off then 2 else 1, if off then 1 else 0);
    assert p3.s.rules == [OffRule(low, !off), OnRule(high, off)];
    SentAppend(p3.s.trace, Fired(rule.id));
  }

  lemma ThreeCommands(p: Progress, cs: seq<RuleCommand>)
    requires |cs| == 3
    ensures ExecuteAll(p, cs) == Execute(Execute(Execute(p, cs[0]), cs[1]), cs[2])
  {
    hide Execute;
    assert cs[1..][1..] == cs[2..] && cs[2..][1..] == [];
    var p2 := Execute(Execute(p, cs[0]), cs[1]);
    assert ExecuteAll(p2, cs[2..]) == ExecuteAll(Execute(p2, cs[2]), []);
  }

  lemma FindInPair(rules: seq<Rule>)
    requires |rules| == 2 && rules[0].id == 1 && rules[1].id == 2
    ensures Find(rules, 1) == 0 && Find(rules, 2) == 1
  {
    assert rules[1..][0] == rules[1];
  }

  lemma PairPass(p: Progress, inputs: Inputs)
    requires |p.s.rules| == 2
    ensures var p1 := Visit(p, p.s.rules[0], inputs);
      |p1.s.rules| == 2 && PassFrom(p, 0, inputs) == Visit(p1, p1.s.rules[1], inputs)
  {
    hide Visit;
    var p1 := Visit(p, p.s.rules[0], inputs);
    VisitKeepsRules(p, p.s.rules[0], inputs);
    VisitKeepsRules(p1, p1.s.rules[1], inputs);
    var p2 := Visit(p1, p1.s.rules[1], inputs);
    assert PassFrom(p2, 2, inputs) == p2;
    assert PassFrom(p1, 1, inputs) == p2;
  }

  /** Visiting an enabled rule whose condition is met and which is not remembered: it fires. */
  lemma VisitFires(p: Progress, off: bool, low: Number, high: Number, inputs: Inputs)
    requires p.s.rules == [OffRule(low, off), OnRule(high, !off)] && !LastState(p.s, if off then 1 else 2)
    requires var rule := if off then OffRule(low, true) else OnRule(high, true);
      ConditionsMet(rule.conditions, p.s.variables, inputs)
    ensures var rule := if off then OffRule(low, true) else OnRule(high, true);
      var q := Visit(p, rule, inputs);
      && q.s.rules == [OffRule(low, !off), OnRule(high, off)]
      && SentIn(q.s.trace) == SentIn(p.s.trace) + [if off then OFF_COMMAND else ON_COMMAND]
      && q.s.lastState == p.s.lastState[if off then 1 else 2 := true]
      && q.s.variables == p.s.variables
  {
    hide ConditionsMet, Fire, SentIn;
    var rule := if off then OffRule(low, true) else OnRule(high, true);
    var seen := Record(p, Visited(rule.id, true, true));
    SentAppend(p.s.trace, Visited(rule.id, true, true));
    FireSwitches(seen, off, low, high);
  }

  /** Visiting a rule that is disabled or whose condition is not met: nothing but its memory changes. */
  lemma VisitPasses(p: Progress, rule: Rule, inputs: Inputs)
    requires rule.enabled ==> !ConditionsMet(rule.conditions, p.s.variables, inputs)
    ensures var q := Visit(p, rule, inputs);
      && q.s.rules == p.s.rules && SentIn(q.s.trace) == SentIn(p.s.trace)
      && q.s.lastState == p.s.lastState[rule.id := false] && q.s.variables == p.s.variables
  {
    hide ConditionsMet, Fire, SentIn;
    SentAppend(p.s.trace, Visited(rule.id, rule.enabled, false));
  }

  /** One pass reacts as the switch does, whatever the reading, and stays armed. */
  lemma PassReacts(s: Engine, armed: Mode, low: Number, high: Number, inputs: Inputs)
    requires Armed(s, armed, low, high) && ToReal(low) < ToReal(high)
    ensures var reaction := React(armed, Reading(inputs), ToReal(low), ToReal(high));
      var q := PassFrom(Progress(s, false), 0, inputs);
      && Armed(q.s, reaction.0, low, high)
      && SentIn(q.s.trace) == SentIn(s.trace) + reaction.1
  {
    hide ToReal, ConditionsMet, Visit, PassFrom, SentIn, Reading;
    var p := Progress(s, false);
    var p1 := Visit(p, p.s.rules[0], inputs);
    PairPass(p, inputs);
    ThresholdMet(LessEqual, low, p.s.variables, inputs);
    ThresholdMet(GreaterEqual, high, p.s.variables, inputs);
    if armed == Off && ConditionsMet([Threshold(LessEqual, low)], p.s.variables, inputs) {
      VisitFires(p, true, low, high, inputs);
      VisitPasses(p1, p1.s.rules[1], inputs);
    } else {
      VisitPasses(p, p.s.rules[0], inputs);
      if armed == On && ConditionsMet([Threshold(GreaterEqual, high)], p.s.variables, inputs) {
        VisitFires(p1, false, low, high, inputs);
      } else {
        VisitPasses(p1, p1.s.rules[1], inputs);
      }
    }
  }

  /** Nothing but passes over the rules, each with its inputs; the rules file may be writable or not. */
  predicate OnlyPasses(steps: seq<Step>) {
    forall i :: 0 <= i < |steps| ==> steps[i].op.EvaluateOp?
  }

  function Readings(passes: seq<Step>): (r: seq<Option<real>>)
    requires OnlyPasses(passes)
    ensures |r| == |passes|
  {
    seq(|passes|, i requires 0 <= i < |passes| => Reading(passes[i].op.inputs))
  }

  /** Over any sequence of readings, missing ones included, the engine with the two rules is the
      switch: it sends the same commands in the same passes, and after each pass exactly the rule the
      switch waits for is enabled. */
  lemma {:induction false} ExampleIsHysteresis(s: Engine, armed: Mode, low: Number, high: Number, passes: seq<Step>)
    requires Armed(s, armed, low, high) && ToReal(low) < ToReal(high) && OnlyPasses(passes)
    ensures var q := Run(s, passes);
      var reaction := ReactAll(armed, Readings(passes), ToReal(low), ToReal(high));
      && Armed(q, reaction.0, low, high)
      && SentIn(q.trace) == SentIn(s.trace) + reaction.1
    decreases |passes|
  {
    hide ToReal, PassFrom, SentIn, Reading, React, RulesText;
    if passes == [] {
      assert SentIn(s.trace) + [] == SentIn(s.trace);
    } else {
      var inputs := passes[0].op.inputs;
      PassReacts(s, armed, low, high, inputs);
      var first := React(armed, Reading(inputs), ToReal(low), ToReal(high));
      var s1 := Evaluate(s, inputs, passes[0].writable);
      assert Readings(passes)[1..] == Readings(passes[1..]);
      ExampleIsHysteresis(s1, first.0, low, high, passes[1..]);
      var rest := ReactAll(first.0, Readings(passes[1..]), ToReal(low), ToReal(high));
      assert (SentIn(s.trace) + first.1) + rest.1 == SentIn(s.trace) + (first.1 + rest.1);
    }
  }

  // ----- The example, loaded -----

  /** The rules of the example, as they are shipped. */
  function Example(low: Number, high: Number): seq<Rule> {
    [OffRule(low, true), OnRule(high, false)]
  }

  lemma IdIsLexeme(id: string)
    requires |id| == 1 && AllDigits(id)
    ensures NumberLexeme(id)
  {
    assert SkipDigits(id, 1) == 1 && SkipDigits(id, 0) == 1;
    assert id[0..1] == id;
  }

  lemma ExampleIsWellFormed(low: Number, high: Number)
    requires DigitCount(low) <= PRECISION && DigitCount(high) <= PRECISION
    ensures WellFormedRules(FILE_LAYOUT, Example(low, high))
  {
    hide DigitCount, NumberLexeme;
    IdIsLexeme("1");
    IdIsLexeme("2");
    OneRuleIsWellFormed(OffRule(low, true));
    OneRuleIsWellFormed(OnRule(high, false));
  }

  lemma OneRuleIsWellFormed(r: Rule)
    requires r.id != 0 && |r.conditions| == 1 && WellFormedCondition(r.conditions[0]) && |r.commands| == 3
    requires WellFormedCommand(FILE_LAYOUT, r.commands[0])
    requires WellFormedCommand(FILE_LAYOUT, r.commands[1]) && WellFormedCommand(FILE_LAYOUT, r.commands[2])
    ensures WellFormedRule(FILE_LAYOUT, r)
  {
    hide WellFormedCondition, WellFormedCommand;
  }

  /** The file reads as the two rules. */
  predicate Holds(file: Option<string>, low: Number, high: Number) {
    file.Some? && ReadRules(file.value).Ok? && ReadRules(file.value).value == Example(low, high)
  }

  /** Their saved form does, when the thresholds have at most six digits. */
  lemma SavedExampleHolds(low: Number, high: Number)
    requires DigitCount(low) <= PRECISION && DigitCount(high) <= PRECISION
    ensures Holds(Some(RulesText(FILE_LAYOUT, Example(low, high))), low, high)
  {
    hide RulesText, ReadRules, WellFormedRules, BlankLayout, DigitCount;
    ExampleIsWellFormed(low, high);
    LayoutsAreBlank();
    SavedRulesReadBack(FILE_LAYOUT, Example(low, high));
  }

  /** Loading a file with the example arms the rule that switches off. */
  lemma ExampleLoads(s: Engine, low: Number, high: Number)
    requires Holds(s.file, low, high) && SentIn(s.trace) == []
    ensures Load(s).rules == Example(low, high) && Armed(Load(s), Off, low, high) && SentIn(Load(s).trace) == []
  {
    hide ReadRules, SentIn, Unmet;
    SentAppend(s.trace, Reloaded);
    NoneMet(Example(low, high));
  }

  /** Loaded from a file, the example sends OFF and ON in strict alternation, OFF first. */
  lemma ExampleAlternates(s: Engine, low: Number, high: Number, writable: bool, passes: seq<Step>)
    requires Holds(s.file, low, high) && SentIn(s.trace) == []
    requires ToReal(low) < ToReal(high) && OnlyPasses(passes)
    ensures Alternating(SentIn(Run(s, [Step(LoadOp, writable)] + passes).trace), OFF_COMMAND, ON_COMMAND)
  {
    hide ToReal, ReactAll, Load, Holds, SentIn;
    var steps := [Step(LoadOp, writable)] + passes;
    assert steps[1..] == passes;
    ExampleLoads(s, low, high);
    ExampleIsHysteresis(Load(s), Off, low, high, passes);
    CommandsAlternate(Off, Readings(passes), ToReal(low), ToReal(high));
    var sent := ReactAll(Off, Readings(passes), ToReal(low), ToReal(high)).1;
    assert [] + sent == sent;
  }
}
