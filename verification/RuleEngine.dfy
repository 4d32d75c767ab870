/** The rules engine of server/rules.hpp (lines 592-616, 742-1022) with the variables of
    server/variables.hpp. Every operation holds the rules mutex, so each is one step on the state. */
module RuleEngine {
  import opened Options
  import opened Text
  import opened Numbers
  import opened Rules
  import opened RuleReader
  import opened RulePrinter
  import opened RuleParser

  /** What a step does that can be told afterwards: commands to the outside, and the fate of rules.
      Fired stands where the commands of the rule have been executed. */
  datatype Event =
    | Sent(data: string)
    | SystemCall(data: string)
    | Visited(id: uint32, enabled: bool, met: bool)
    | Fired(id: uint32)
    | Switched(id: uint32, enabled: bool)
    | Added(id: uint32)
    | Deleted(id: uint32)
    | Reloaded

  datatype Engine = Engine(
    rules: seq<Rule>, lastState: map<uint32, bool>, variables: map<uint32, real>,
    file: Option<string>, trace: seq<Event>)

  /** What a pass reads from outside: the last register and relay values and the local time of day. */
  datatype Inputs = Inputs(lastValues: map<nat, int>, secondsOfDay: nat)

  // ----- Input values -----

  function ToReal(d: Number): real {
    var magnitude :=
      if d.exponent >= 0 then (d.mantissa * Pow10(d.exponent)) as real
      else d.mantissa as real / Pow10(-d.exponent) as real;
    if d.neg then -magnitude else magnitude
  }

  const TENTHS: set<nat> := {20102, 20113, 20118, 20119, 10103, 10104, 10105, 10107, 20125, 20127, 20128, 20132,
                             15205, 15206, 15207, 25212}

  /** `getScaledRegisterValue`: relays are looked up by the low byte of the address. */
  function ScaledRegisterValue(address: nat, value: int): real {
    if 1 <= address % 256 <= 4 then value as real
    else if address in TENTHS then value as real / 10.0
    else if address == 20103 then value as real / 100.0
    else value as real
  }

  function VariableValue(variables: map<uint32, real>, key: uint32): real {
    if key in variables then variables[key] else 0.0
  }

  function InputValue(kind: ConditionInputType, address: uint32, variables: map<uint32, real>,
          inputs: Inputs): Option<real> {
    var key := address % 0x10000;
    match kind
    case Register => if key in inputs.lastValues then Some(ScaledRegisterValue(key, inputs.lastValues[key])) else None
    case Variable => Some(VariableValue(variables, address))
    case Relay => if key in inputs.lastValues then Some(inputs.lastValues[key] as real) else None
    case Time => Some(inputs.secondsOfDay as real)
    case UnknownInput => None
  }

  function ComparedValue(c: RuleCondition, variables: map<uint32, real>, inputs: Inputs): Option<real> {
    if c.valueInputType == UnknownInput then Some(ToReal(c.valueNumber))
    else InputValue(c.valueInputType, c.valueInputAddress, variables, inputs)
  }

  function Distance(x: real, y: real): real {
    if x < y then y - x else x - y
  }

  function Compare(op: ConditionOperator, input: real, value: real): bool {
    match op
    case Equal => Distance(input, value) < 0.000001
    case NotEqual => Distance(input, value) >= 0.000001
    case Less => input < value
    case LessEqual => input <= value
    case Greater => input > value
    case GreaterEqual => input >= value
    case UnknownOperator => false
  }

  predicate ConditionMet(c: RuleCondition, variables: map<uint32, real>, inputs: Inputs) {
    var input := InputValue(c.inputType, c.inputAddress, variables, inputs);
    var value := ComparedValue(c, variables, inputs);
    input.Some? && value.Some? && Compare(c.op, input.value, value.value)
  }

  predicate ConditionsMet(cs: seq<RuleCondition>, variables: map<uint32, real>, inputs: Inputs) {
    forall i :: 0 <= i < |cs| ==> ConditionMet(cs[i], variables, inputs)
  }

  // ----- Commands -----

  /** The index of the first rule with the id, or the number of rules. */
  function Find(rules: seq<Rule>, id: uint32): (i: nat)
    ensures i <= |rules|
    ensures i < |rules| ==> rules[i].id == id
    ensures forall k :: 0 <= k < i ==> rules[k].id != id
  {
    if rules == [] then 0
    else if rules[0].id == id then 0
    else 1 + Find(rules[1..], id)
  }

  /** An engine, and whether its rules have been modified since they were last saved. */
  datatype Progress = Progress(s: Engine, modified: bool)

  predicate CanSwitch(rules: seq<Rule>, id: uint32, enabled: bool) {
    var i := Find(rules, id);
    i < |rules| && rules[i].enabled != enabled
  }

  /** `setRuleEnabledInternal` */
  function Switch(s: Engine, id: uint32, enabled: bool): Engine {
    var i := Find(s.rules, id);
    if CanSwitch(s.rules, id, enabled) then
      s.(rules := s.rules[i := s.rules[i].(enabled := enabled)],
         lastState := if enabled then s.lastState else s.lastState[id := false],
         trace := s.trace + [Switched(id, enabled)])
    else s
  }

  function TargetId(data: string): uint32 {
    match Stoul(data)
    case None => 0
    case Some(n) => n % UINT32_RANGE
  }

  function CommandNumber(data: string): real {
    match Stod(data)
    case None => 0.0
    case Some(d) => ToReal(d)
  }

  function SwitchCommand(p: Progress, data: string, enabled: bool): Progress {
    var id := TargetId(data);
    if id > 0 && CanSwitch(p.s.rules, id, enabled) then Progress(Switch(p.s, id, enabled), true) else p
  }

  function SetVariable(s: Engine, key: uint32, value: real): Engine {
    s.(variables := s.variables[key := value])
  }

  function Execute(p: Progress, c: RuleCommand): Progress {
    var s := p.s;
    match c.kind
    case Send => p.(s := s.(trace := s.trace + [Sent(c.data)]))
    case Enable => SwitchCommand(p, c.data, true)
    case Disable => SwitchCommand(p, c.data, false)
    case SetVar => p.(s := SetVariable(s, c.address, CommandNumber(c.data)))
    case AddVar => p.(s := SetVariable(s, c.address, VariableValue(s.variables, c.address) + CommandNumber(c.data)))
    case SubVar => p.(s := SetVariable(s, c.address, VariableValue(s.variables, c.address) - CommandNumber(c.data)))
    case System => if c.data == "" then p else p.(s := s.(trace := s.trace + [SystemCall(c.data)]))
    case UnknownCommand => p
  }

  function ExecuteAll(p: Progress, cs: seq<RuleCommand>): Progress
    decreases |cs|
  {
    if cs == [] then p else ExecuteAll(Execute(p, cs[0]), cs[1..])
  }

  // ----- One pass over the rules -----

  predicate LastState(s: Engine, id: uint32) {
    id in s.lastState && s.lastState[id]
  }

  function Record(p: Progress, e: Event): Progress {
    p.(s := p.s.(trace := p.s.trace + [e]))
  }

  function Remember(p: Progress, id: uint32, met: bool): Progress {
    p.(s := p.s.(lastState := p.s.lastState[id := met]))
  }

  /** The commands of a rule, executed, and the mark that they have been. */
  function Fire(p: Progress, rule: Rule): Progress {
    Record(ExecuteAll(p, rule.commands), Fired(rule.id))
  }

  /** The turn of one rule, in the state the earlier rules of the pass have left. */
  function Visit(p: Progress, rule: Rule, inputs: Inputs): Progress {
    if !rule.enabled then
      Remember(Record(p, Visited(rule.id, false, false)), rule.id, false)
    else
      var met := ConditionsMet(rule.conditions, p.s.variables, inputs);
      var seen := Record(p, Visited(rule.id, true, met));
      Remember(if met && !LastState(p.s, rule.id) then Fire(seen, rule) else seen, rule.id, met)
  }

  function PassFrom(p: Progress, i: nat, inputs: Inputs): Progress
    requires i <= |p.s.rules|
    decreases |p.s.rules| - i
  {
    if i == |p.s.rules| then p
    else
      VisitKeepsRules(p, p.s.rules[i], inputs);
      PassFrom(Visit(p, p.s.rules[i], inputs), i + 1, inputs)
  }

  // ----- The rules file -----

  /** `saveRules`, when the file can be written. */
  function Save(s: Engine, writable: bool): Engine {
    if writable then s.(file := Some(RulesText(FILE_LAYOUT, s.rules))) else s
  }

  function Unmet(rules: seq<Rule>): map<uint32, bool> {
    map r | r in rules :: r.id := false
  }

  /** `loadRules`: a missing file is an empty rule list, one that cannot be read changes nothing. */
  function Load(s: Engine): Engine {
    match s.file
    case None => s.(rules := [], lastState := map[], trace := s.trace + [Reloaded])
    case Some(text) =>
      match ReadRules(text)
      case Ok(rules, _) => s.(rules := rules, lastState := Unmet(rules), trace := s.trace + [Reloaded])
      case Rejected => s
      case Thrown => s
  }

  function Extended(s: Engine, added: Rule): Engine {
    s.(rules := s.rules + [added],
       lastState := s.lastState[added.id := false],
       trace := s.trace + [Added(added.id)])
  }

  function Add(s: Engine, rule: Rule, writable: bool): Engine {
    if rule.id != 0 && Find(s.rules, rule.id) < |s.rules| then s
    else
      var added := WithId(s.rules, rule);
      Save(Extended(s, added), writable)
  }

  function Without(rules: seq<Rule>, id: uint32): (r: seq<Rule>)
    ensures |r| <= |rules|
  {
    if rules == [] then []
    else (if rules[0].id == id then [] else [rules[0]]) + Without(rules[1..], id)
  }

  function Reduced(s: Engine, id: uint32): Engine {
    s.(rules := Without(s.rules, id), lastState := s.lastState - {id}, trace := s.trace + [Deleted(id)])
  }

  function Delete(s: Engine, id: uint32, writable: bool): Engine {
    if Find(s.rules, id) == |s.rules| then s
    else
      Save(Reduced(s, id), writable)
  }

  function SetEnabled(s: Engine, id: uint32, enabled: bool, writable: bool): Engine {
    if CanSwitch(s.rules, id, enabled) then Save(Switch(s, id, enabled), writable) else s
  }

  function SaveIfModified(p: Progress, writable: bool): Engine {
    if p.modified then Save(p.s, writable) else p.s
  }

  function Evaluate(s: Engine, inputs: Inputs, writable: bool): Engine {
    SaveIfModified(PassFrom(Progress(s, false), 0, inputs), writable)
  }

  function ExecuteRule(s: Engine, id: uint32, writable: bool): Engine {
    var i := Find(s.rules, id);
    if i == |s.rules| then s
    else SaveIfModified(ExecuteAll(Progress(s, false), s.rules[i].commands), writable)
  }

  // ----- Only enable flags change while commands run -----

  /** The same rules but for their enable flags. */
  ghost predicate SameButFlags(a: seq<Rule>, b: seq<Rule>) {
    |a| == |b| && forall i :: 0 <= i < |a| ==> a[i].(enabled := true) == b[i].(enabled := true)
  }

  lemma {:induction false} ExecuteAllKeepsRules(p: Progress, cs: seq<RuleCommand>)
    ensures SameButFlags(p.s.rules, ExecuteAll(p, cs).s.rules)
    decreases |cs|
  {
    hide TargetId, CommandNumber, VariableValue;
    if cs != [] {
      ExecuteAllKeepsRules(Execute(p, cs[0]), cs[1..]);
    }
  }

  lemma VisitKeepsRules(p: Progress, rule: Rule, inputs: Inputs)
    ensures SameButFlags(p.s.rules, Visit(p, rule, inputs).s.rules)
  {
    hide ExecuteAll, ConditionsMet;
    ExecuteAllKeepsRules(Record(p, Visited(rule.id, true, true)), rule.commands);
  }

  lemma NoneWithout(kept: seq<Rule>, id: uint32)
    ensures kept + Without([], id) == kept && [] + kept == kept
  {}

  lemma WithoutFirst(kept: seq<Rule>, rules: seq<Rule>, id: uint32)
    requires rules != []
    ensures kept + Without(rules, id) ==
      (if rules[0].id == id then kept else kept + [rules[0]]) + Without(rules[1..], id)
  {
    hide Without;
    FirstOf(rules, id);
    var more := Without(rules[1..], id);
    assert kept + ([] + more) == kept + more && kept + ([rules[0]] + more) == (kept + [rules[0]]) + more;
  }

  lemma FirstOf(rules: seq<Rule>, id: uint32)
    requires rules != []
    ensures Without(rules, id) == (if rules[0].id == id then [] else [rules[0]]) + Without(rules[1..], id)
  {}

  class RuleServer {
    var rules: seq<Rule>
    var ruleLastState: map<uint32, bool>
    var variables: map<uint32, real>
    var rulesFile: Option<string>
    ghost var trace: seq<Event>

    constructor (rulesFile: Option<string>)
      ensures Abstract() == Engine([], map[], map[], rulesFile, [])
    {
      rules := [];
      ruleLastState := map[];
      variables := map[];
      this.rulesFile := rulesFile;
      trace := [];
    }

    ghost function Abstract(): Engine
      reads this
    {
      Engine(rules, ruleLastState, variables, rulesFile, trace)
    }

    method SaveRules(writable: bool) returns (ok: bool)
      modifies this`rulesFile
      ensures Abstract() == Save(old(Abstract()), writable) && ok == writable
    {
      if !writable {
        return false;
      }
      var text := PrintRules(FILE_LAYOUT, rules);
      rulesFile := Some(text);
      ok := true;
    }

    /** Every loaded rule starts as not met. */
    method ForgetStates()
      modifies this`ruleLastState
      ensures ruleLastState == Unmet(rules)
    {
      ruleLastState := map[];
      for i := 0 to |rules|
        invariant ruleLastState == map r | r in rules[..i] :: r.id := false
      {
        assert rules[..i + 1] == rules[..i] + [rules[i]];
        ruleLastState := ruleLastState[rules[i].id := false];
      }
      assert rules[..|rules|] == rules;
    }

    /** The result is None when an exception of the parser comes out. */
    method LoadRules() returns (ok: Option<bool>)
      modifies this
      ensures Abstract() == Load(old(Abstract()))
      ensures ok == if rulesFile.None? || ReadRules(rulesFile.value).Ok? then Some(true)
                    else if ReadRules(rulesFile.value).Rejected? then Some(false)
                    else None
    {
      hide Unmet, ReadRules;
      if rulesFile.None? {
        rules := [];
        ruleLastState := map[];
        trace := trace + [Reloaded];
        return Some(true);
      }
      var loaded := ParseRulesArray(rulesFile.value);
      match loaded {
        case Rejected => return Some(false);
        case Thrown => return None;
        case Ok(parsed, _) =>
          rules := parsed;
          ForgetStates();
          trace := trace + [Reloaded];
          return Some(true);
      }
    }

    method FindRule(id: uint32) returns (i: nat)
      ensures i == Find(rules, id)
    {
      i := 0;
      assert rules[0..] == rules;
      while i < |rules| && rules[i].id != id
        invariant i <= |rules| && Find(rules, id) == i + Find(rules[i..], id)
      {
        assert rules[i..][1..] == rules[i + 1..];
        i := i + 1;
      }
    }

    method AddRule(rule: Rule, writable: bool) returns (ok: bool)
      modifies this
      ensures Abstract() == Add(old(Abstract()), rule, writable)
      ensures ok == (writable && (rule.id == 0 || Find(old(rules), rule.id) == |old(rules)|))
    {
      hide RulesText;
      var newRule := rule;
      if newRule.id == 0 {
        var nextId := FindNextId(rules);
        newRule := newRule.(id := nextId);
      } else {
        var i := FindRule(newRule.id);
        if i < |rules| {
          return false;
        }
      }
      rules := rules + [newRule];
      ruleLastState := ruleLastState[newRule.id := false];
      trace := trace + [Added(newRule.id)];
      ok := SaveRules(writable);
    }

    /** The list without the rules that have the id. */
    static method RemoveRule(rules: seq<Rule>, ruleId: uint32) returns (kept: seq<Rule>)
      ensures kept == Without(rules, ruleId)
    {
      hide Without;
      kept := [];
      assert rules[0..] == rules;
      NoneWithout(Without(rules, ruleId), ruleId);
      for i := 0 to |rules|
        invariant kept + Without(rules[i..], ruleId) == Without(rules, ruleId)
      {
        assert rules[i..][1..] == rules[i + 1..];
        WithoutFirst(kept, rules[i..], ruleId);
        if rules[i].id != ruleId {
          kept := kept + [rules[i]];
        }
      }
      assert rules[|rules|..] == [];
      NoneWithout(kept, ruleId);
    }

    method DeleteRule(ruleId: uint32, writable: bool) returns (ok: bool)
      modifies this
      ensures Abstract() == Delete(old(Abstract()), ruleId, writable)
      ensures ok == (writable && Find(old(rules), ruleId) < |old(rules)|)
    {
      hide RulesText;
      var first := FindRule(ruleId);
      if first == |rules| {
        return false;
      }
      var kept := RemoveRule(rules, ruleId);
      rules := kept;
      ruleLastState := ruleLastState - {ruleId};
      trace := trace + [Deleted(ruleId)];
      ok := SaveRules(writable);
    }

    method SetRuleEnabledInternal(ruleId: uint32, enabled: bool) returns (changed: bool)
      modifies this`rules, this`ruleLastState, this`trace
      ensures changed == CanSwitch(old(rules), ruleId, enabled)
      ensures Abstract() == Switch(old(Abstract()), ruleId, enabled)
    {
      var i := FindRule(ruleId);
      if i == |rules| || rules[i].enabled == enabled {
        return false;
      }
      rules := rules[i := rules[i].(enabled := enabled)];
      if !enabled {
        ruleLastState := ruleLastState[ruleId := false];
      }
      trace := trace + [Switched(ruleId, enabled)];
      changed := true;
    }

    method SetRuleEnabled(ruleId: uint32, enabled: bool, writable: bool) returns (ok: bool)
      modifies this
      ensures Abstract() == SetEnabled(old(Abstract()), ruleId, enabled, writable)
      ensures ok == (CanSwitch(old(rules), ruleId, enabled) && writable)
    {
      hide Switch, CanSwitch, RulesText;
      NotSwitched(Abstract(), ruleId, enabled);
      ok := SetRuleEnabledInternal(ruleId, enabled);
      if ok {
        ok := SaveRules(writable);
      }
    }

    method AddToVariable(key: uint32, value: real)
      modifies this`variables
      ensures variables == old(variables)[key := VariableValue(old(variables), key) + value]
    {
      var before := if key in variables then variables[key] else 0.0;
      variables := variables[key := before + value];
    }

    method ExecuteRuleCommand(command: RuleCommand, modified0: bool) returns (modified: bool)
      modifies this`rules, this`ruleLastState, this`trace, this`variables
      ensures Progress(Abstract(), modified) == Execute(Progress(old(Abstract()), modified0), command)
    {
      hide Switch, CanSwitch, TargetId, CommandNumber;
      modified := modified0;
      match command.kind {
        case Send => trace := trace + [Sent(command.data)];
        case Enable =>
          var targetId := TargetId(command.data);
          if targetId > 0 {
            var changed := SetRuleEnabledInternal(targetId, true);
            modified := modified || changed;
            NotSwitched(old(Abstract()), targetId, true);
          }
        case Disable =>
          var targetId := TargetId(command.data);
          if targetId > 0 {
            var changed := SetRuleEnabledInternal(targetId, false);
            modified := modified || changed;
            NotSwitched(old(Abstract()), targetId, false);
          }
        case SetVar => variables := variables[command.address := CommandNumber(command.data)];
        case AddVar => AddToVariable(command.address, CommandNumber(command.data));
        case SubVar => AddToVariable(command.address, -CommandNumber(command.data));
        case System =>
          if command.data != "" {
            trace := trace + [SystemCall(command.data)];
          }
        case UnknownCommand =>
      }
    }

    method ExecuteCommands(commands: seq<RuleCommand>, modified0: bool) returns (modified: bool)
      modifies this`rules, this`ruleLastState, this`trace, this`variables
      ensures Progress(Abstract(), modified) == ExecuteAll(Progress(old(Abstract()), modified0), commands)
    {
      hide Execute;
      modified := modified0;
      assert commands[0..] == commands;
      for k := 0 to |commands|
        invariant ExecuteAll(Progress(Abstract(), modified), commands[k..])
               == ExecuteAll(Progress(old(Abstract()), modified0), commands)
        invariant rulesFile == old(rulesFile)
      {
        assert commands[k..][1..] == commands[k + 1..];
        modified := ExecuteRuleCommand(commands[k], modified);
      }
    }

    /** The conditions of a rule, up to the first that is not met. */
    method EvaluateConditions(conditions: seq<RuleCondition>, inputs: Inputs) returns (conditionsMet: bool)
      ensures conditionsMet == ConditionsMet(conditions, variables, inputs)
    {
      hide InputValue, ComparedValue, Compare;
      conditionsMet := true;
      for k := 0 to |conditions|
        invariant conditionsMet
        invariant forall n :: 0 <= n < k ==> ConditionMet(conditions[n], variables, inputs)
      {
        var condition := conditions[k];
        var inputValue := InputValue(condition.inputType, condition.inputAddress, variables, inputs);
        if inputValue.None? {
          return false;
        }
        var compareValue := ComparedValue(condition, variables, inputs);
        if compareValue.None? {
          return false;
        }
        if !Compare(condition.op, inputValue.value, compareValue.value) {
          return false;
        }
      }
    }

    method VisitRule(rule: Rule, inputs: Inputs, modified0: bool) returns (modified: bool)
      modifies this`rules, this`ruleLastState, this`trace, this`variables
      ensures Progress(Abstract(), modified) == Visit(Progress(old(Abstract()), modified0), rule, inputs)
    {
      hide ConditionsMet, ExecuteAll;
      modified := modified0;
      if !rule.enabled {
        trace := trace + [Visited(rule.id, false, false)];
        ruleLastState := ruleLastState[rule.id := false];
        return;
      }
      var conditionsMet := EvaluateConditions(rule.conditions, inputs);
      var previouslyMet := if rule.id in ruleLastState then ruleLastState[rule.id] else false;
      trace := trace + [Visited(rule.id, true, conditionsMet)];
      if conditionsMet && !previouslyMet {
        modified := ExecuteCommands(rule.commands, modified);
        trace := trace + [Fired(rule.id)];
      }
      ruleLastState := ruleLastState[rule.id := conditionsMet];
    }

    method EvaluateRules(inputs: Inputs, writable: bool)
      modifies this
      ensures Abstract() == Evaluate(old(Abstract()), inputs, writable)
    {
      hide Visit, RulesText;
      var rulesModified := false;
      for i := 0 to |rules|
        invariant i <= |rules| == |old(rules)| && rulesFile == old(rulesFile)
        invariant PassFrom(Progress(Abstract(), rulesModified), i, inputs) ==
          PassFrom(Progress(old(Abstract()), false), 0, inputs)
      {
        VisitKeepsRules(Progress(Abstract(), rulesModified), rules[i], inputs);
        rulesModified := VisitRule(rules[i], inputs, rulesModified);
      }
      if rulesModified {
        var _ := SaveRules(writable);
      }
    }

    method ExecuteRuleCommands(ruleId: uint32, writable: bool) returns (ok: bool)
      modifies this
      ensures Abstract() == ExecuteRule(old(Abstract()), ruleId, writable)
      ensures var i := Find(old(rules), ruleId);
        if i == |old(rules)| then !ok
        else ok == (writable || !ExecuteAll(Progress(old(Abstract()), false), old(rules)[i].commands).modified)
    {
      hide ExecuteAll, RulesText;
      var i := FindRule(ruleId);
      if i == |rules| {
        return false;
      }
      var rulesModified := ExecuteCommands(rules[i].commands, false);
      if rulesModified {
        ok := SaveRules(writable);
      } else {
        ok := true;
      }
    }
  }

  lemma NotSwitched(s: Engine, id: uint32, enabled: bool)
    ensures !CanSwitch(s.rules, id, enabled) ==> Switch(s, id, enabled) == s
  {}
}
