/** The parse functions of server/rules.hpp (lines 190-214, 317-616) with their loops, each proved to
    compute its function in RuleReader. Where the code lets an exception out, the result is Thrown. */
module RuleParser {
  import opened Options
  import opened Text
  import opened Numbers
  import opened JsonReader
  import opened Rules
  import opened RuleReader

  /** The head of the three member loops. */
  method ParseMemberHead(data: string, pos0: nat) returns (r: MemberScan)
    ensures r == NextMember(data, pos0)
  {
    hide SkipBlanks, StringScan;
    var pos := SkipWhitespace(data, pos0);
    if pos >= |data| {
      return Malformed;
    }
    if data[pos] == '}' {
      return End(pos + 1);
    }
    var ok, key;
    ok, key, pos := ParseJsonString(data, pos);
    if !ok {
      return Malformed;
    }
    var colon;
    colon, pos := ConsumeChar(data, pos, ':');
    if !colon {
      return Malformed;
    }
    return Member(key, pos);
  }

  method SkipComma(data: string, pos0: nat) returns (pos: nat)
    ensures pos == AfterItem(data, pos0)
  {
    pos := SkipWhitespace(data, pos0);
    if pos < |data| && data[pos] == ',' {
      pos := pos + 1;
    }
  }

  method ParseConditionMember(data: string, pos: nat, key: string, condition: RuleCondition)
    returns (r: Parsed<RuleCondition>)
    requires pos <= |data|
    ensures r == ConditionMember(data, pos, key, condition)
  {
    hide ScanValue, Skip, SetConditionMember, ConditionKeyOf;
    var k := ConditionKeyOf(key);
    if k == OtherConditionKey {
      var next := SkipJsonValue(data, pos);
      return Ok(condition, next);
    }
    var ok, value, isString, next := ParseJsonValueAsString(data, pos);
    if !ok {
      return Rejected;
    }
    match SetConditionMember(condition, k, value, isString)
    case None => return Thrown;
    case Some(c) => return Ok(c, next);
  }

  method ParseRuleCondition(data: string, pos0: nat) returns (r: Parsed<RuleCondition>)
    ensures r == ReadCondition(data, pos0)
  {
    hide ConditionMember, NextMember, AfterItem;
    var open, pos := ConsumeChar(data, pos0, '{');
    if !open {
      return Rejected;
    }
    var condition := NEW_CONDITION;
    while true
      invariant ReadCondition(data, pos0) == ConditionMembers(data, pos, condition)
      decreases Measure(data, pos)
    {
      var head := ParseMemberHead(data, pos);
      match head {
        case Malformed => return Rejected;
        case End(p) => return Ok(condition, p);
        case Member(key, p) =>
          var member := ParseConditionMember(data, p, key, condition);
          if !member.Ok? {
            return member;
          }
          condition := member.value;
          pos := SkipComma(data, member.pos);
      }
    }
  }

  method ParseCommandMember(data: string, pos: nat, key: string, command: RuleCommand) returns (r: Parsed<RuleCommand>)
    requires pos <= |data|
    ensures r == CommandMember(data, pos, key, command)
  {
    hide ScanValue, Skip, SetCommandMember, CommandKeyOf;
    var k := CommandKeyOf(key);
    if k == OtherCommandKey {
      var next := SkipJsonValue(data, pos);
      return Ok(command, next);
    }
    var ok, value, isString, next := ParseJsonValueAsString(data, pos);
    if !ok {
      return Rejected;
    }
    match SetCommandMember(command, k, value)
    case None => return Thrown;
    case Some(c) => return Ok(c, next);
  }

  method ParseRuleCommand(data: string, pos0: nat) returns (r: Parsed<RuleCommand>)
    ensures r == ReadCommand(data, pos0)
  {
    hide CommandMember, NextMember, AfterItem;
    var open, pos := ConsumeChar(data, pos0, '{');
    if !open {
      return Rejected;
    }
    var command := NEW_COMMAND;
    while true
      invariant ReadCommand(data, pos0) == CommandMembers(data, pos, command)
      decreases Measure(data, pos)
    {
      var head := ParseMemberHead(data, pos);
      match head {
        case Malformed => return Rejected;
        case End(p) => return Ok(command, p);
        case Member(key, p) =>
          var member := ParseCommandMember(data, p, key, command);
          if !member.Ok? {
            return member;
          }
          command := member.value;
          pos := SkipComma(data, member.pos);
      }
    }
  }

  method ParseConditions(data: string, pos0: nat) returns (r: Parsed<seq<RuleCondition>>)
    ensures r == ConditionItems(data, pos0, [])
  {
    hide ReadCondition, AfterItem, SkipBlanks;
    var pos, items := pos0, [];
    while true
      invariant ConditionItems(data, pos0, []) == ConditionItems(data, pos, items)
      decreases Measure(data, pos)
    {
      var at := SkipWhitespace(data, pos);
      if at >= |data| {
        return Rejected;
      }
      if data[at] == ']' {
        return Ok(items, at + 1);
      }
      var condition := ParseRuleCondition(data, at);
      match condition {
        case Rejected => return Rejected;
        case Thrown => return Thrown;
        case Ok(c, p) =>
          items := items + [c];
          pos := SkipComma(data, p);
      }
    }
  }

  method ParseCommands(data: string, pos0: nat) returns (r: Parsed<seq<RuleCommand>>)
    ensures r == CommandItems(data, pos0, [])
  {
    hide ReadCommand, AfterItem, SkipBlanks;
    var pos, items := pos0, [];
    while true
      invariant CommandItems(data, pos0, []) == CommandItems(data, pos, items)
      decreases Measure(data, pos)
    {
      var at := SkipWhitespace(data, pos);
      if at >= |data| {
        return Rejected;
      }
      if data[at] == ']' {
        return Ok(items, at + 1);
      }
      var command := ParseRuleCommand(data, at);
      match command {
        case Rejected => return Rejected;
        case Thrown => return Thrown;
        case Ok(c, p) =>
          items := items + [c];
          pos := SkipComma(data, p);
      }
    }
  }

  method ParseRuleMember(data: string, pos: nat, key: string, rule: Rule) returns (r: Parsed<Rule>)
    requires pos <= |data|
    ensures r == RuleMember(data, pos, key, rule)
  {
    hide ScanValue, ScanBool, StringScan, Skip, ConditionItems, CommandItems, RuleKeyOf, ToUint32;
    match RuleKeyOf(key) {
      case IdKey =>
        var ok, value, isString, next := ParseJsonValueAsString(data, pos);
        if !ok {
          return Rejected;
        }
        match ToUint32(value) {
          case None => return Thrown;
          case Some(n) => return Ok(rule.(id := n), next);
        }
      case EnabledKey =>
        var ok, value, next := ParseJsonBool(data, pos);
        return if ok then Ok(rule.(enabled := value), next) else Rejected;
      case NameKey =>
        var ok, value, next := ParseJsonString(data, pos);
        return if ok then Ok(rule.(name := value), next) else Rejected;
      case ConditionsKey =>
        var open, next := ConsumeChar(data, pos, '[');
        if !open {
          return Rejected;
        }
        var items := ParseConditions(data, next);
        match items {
          case Rejected => return Rejected;
          case Thrown => return Thrown;
          case Ok(v, p) => return Ok(rule.(conditions := v), p);
        }
      case CommandsKey =>
        var open, next := ConsumeChar(data, pos, '[');
        if !open {
          return Rejected;
        }
        var items := ParseCommands(data, next);
        match items {
          case Rejected => return Rejected;
          case Thrown => return Thrown;
          case Ok(v, p) => return Ok(rule.(commands := v), p);
        }
      case OtherRuleKey =>
        var next := SkipJsonValue(data, pos);
        return Ok(rule, next);
    }
  }

  method ParseRuleObject(data: string, pos0: nat) returns (r: Parsed<Rule>)
    ensures r == ReadRule(data, pos0)
  {
    hide RuleMember, NextMember, AfterItem;
    var open, pos := ConsumeChar(data, pos0, '{');
    if !open {
      return Rejected;
    }
    var rule := NEW_RULE;
    while true
      invariant ReadRule(data, pos0) == RuleMembers(data, pos, rule)
      decreases Measure(data, pos)
    {
      var head := ParseMemberHead(data, pos);
      match head {
        case Malformed => return Rejected;
        case End(p) => return Ok(rule, p);
        case Member(key, p) =>
          var member := ParseRuleMember(data, p, key, rule);
          if !member.Ok? {
            return member;
          }
          rule := member.value;
          pos := SkipComma(data, member.pos);
      }
    }
  }

  /** The loop that finds an id for a rule without one. */
  method FindNextId(rules: seq<Rule>) returns (nextId: uint32)
    ensures nextId == NextId(rules)
  {
    nextId := 1;
    for i := 0 to |rules|
      invariant nextId == NextId(rules[..i])
    {
      assert rules[..i + 1][..i] == rules[..i];
      var candidate := (rules[i].id + 1) % UINT32_RANGE;
      if nextId < candidate {
        nextId := candidate;
      }
    }
    assert rules[..|rules|] == rules;
  }

  method ParseRulesArray(data: string) returns (r: Parsed<seq<Rule>>)
    ensures r == ReadRules(data)
  {
    hide ReadRule, AfterItem, SkipBlanks, NextId;
    var open, pos := ConsumeChar(data, 0, '[');
    if !open {
      return Rejected;
    }
    var outRules: seq<Rule> := [];
    while true
      invariant ReadRules(data) == RuleItems(data, pos, outRules)
      decreases Measure(data, pos)
    {
      var at := SkipWhitespace(data, pos);
      if at >= |data| {
        return Rejected;
      }
      if data[at] == ']' {
        return Ok(outRules, at + 1);
      }
      var parsed := ParseRuleObject(data, at);
      match parsed {
        case Rejected => return Rejected;
        case Thrown => return Thrown;
        case Ok(rule, p) =>
          var added := rule;
          if rule.id == 0 {
            var nextId := FindNextId(outRules);
            added := rule.(id := nextId);
          }
          outRules := outRules + [added];
          pos := SkipComma(data, p);
      }
    }
  }
}
