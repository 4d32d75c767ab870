/** A record that reads as anything gives a place for one more member (see UnknownMembers): behind a
    member, at a comma or at the closing brace. */
module RecordPlaces {
  import opened Options
  import opened Text
  import opened JsonReader
  import opened Rules
  import opened RuleReader
  import opened ReaderFrames
  import opened UnknownMembers

  predicate BehindMember(data: string, n: nat) {
    n < |data| && (data[n] == ',' || data[n] == '}')
  }

  /** Behind an item after which the closing brace is found. */
  lemma LastMember(data: string, q: nat) returns (n: nat)
    requires NextMember(data, AfterItem(data, q)).End?
    ensures n == SkipBlanks(data, q) && BehindMember(data, n)
  {
    hide StringScan;
    n := SkipBlanks(data, q);
    BlanksTwice(data, q);
  }

  // ----- Conditions -----

  lemma {:induction false} ConditionPlace(data: string, pos: nat, c: RuleCondition) returns (n: nat)
    requires ConditionMembers(data, pos, c).Ok? && !NextMember(data, pos).End?
    ensures ConditionComes(data, pos, c, n) && BehindMember(data, n)
    decreases Measure(data, pos)
  {
    hide NextMember, ConditionMember, AfterItem, SkipBlanks, BehindMember;
    var r := ConditionMember(data, NextMember(data, pos).pos, NextMember(data, pos).key, c);
    var next := AfterItem(data, r.pos);
    if NextMember(data, next).End? {
      n := LastMember(data, r.pos);
    } else {
      n := ConditionPlace(data, next, r.value);
    }
  }

  lemma ConditionRecordPlace(data: string, pos: nat) returns (n: nat)
    requires ReadCondition(data, pos).Ok? && ReadCondition(data, pos).value != NEW_CONDITION
    ensures ConditionOpens(data, pos, n) && BehindMember(data, n)
  {
    hide NextMember, ConditionMember, AfterItem, SkipBlanks, ConditionComes;
    n := ConditionPlace(data, Consume(data, pos, '{').value, NEW_CONDITION);
  }

  lemma {:induction false} ConditionsGrow(data: string, pos: nat, items: seq<RuleCondition>)
    requires ConditionItems(data, pos, items).Ok?
    ensures items <= ConditionItems(data, pos, items).value
    decreases Measure(data, pos)
  {
    hide ReadCondition, AfterItem, SkipBlanks;
    var p := SkipBlanks(data, pos);
    if data[p] != ']' {
      var r := ReadCondition(data, p);
      ConditionsGrow(data, AfterItem(data, r.pos), items + [r.value]);
    }
  }

  lemma {:induction false} ConditionsPlace(data: string, pos: nat, items: seq<RuleCondition>, j: nat) returns (n: nat)
    requires ConditionItems(data, pos, items).Ok?
    requires |items| <= j < |ConditionItems(data, pos, items).value|
    requires ConditionItems(data, pos, items).value[j] != NEW_CONDITION
    ensures ConditionsCome(data, pos, n) && BehindMember(data, n)
    decreases Measure(data, pos)
  {
    hide ReadCondition, AfterItem, SkipBlanks, ConditionOpens, BehindMember;
    var p := SkipBlanks(data, pos);
    var r := ReadCondition(data, p);
    var next := AfterItem(data, r.pos);
    ConditionsGrow(data, next, items + [r.value]);
    if j == |items| {
      n := ConditionRecordPlace(data, p);
    } else {
      n := ConditionsPlace(data, next, items + [r.value], j);
    }
  }

  // ----- Commands -----

  lemma {:induction false} CommandPlace(data: string, pos: nat, c: RuleCommand) returns (n: nat)
    requires CommandMembers(data, pos, c).Ok? && !NextMember(data, pos).End?
    ensures CommandComes(data, pos, c, n) && BehindMember(data, n)
    decreases Measure(data, pos)
  {
    hide NextMember, CommandMember, AfterItem, SkipBlanks, BehindMember;
    var r := CommandMember(data, NextMember(data, pos).pos, NextMember(data, pos).key, c);
    var next := AfterItem(data, r.pos);
    if NextMember(data, next).End? {
      n := LastMember(data, r.pos);
    } else {
      n := CommandPlace(data, next, r.value);
    }
  }

  lemma CommandRecordPlace(data: string, pos: nat) returns (n: nat)
    requires ReadCommand(data, pos).Ok? && ReadCommand(data, pos).value != NEW_COMMAND
    ensures CommandOpens(data, pos, n) && BehindMember(data, n)
  {
    hide NextMember, CommandMember, AfterItem, SkipBlanks, CommandComes;
    n := CommandPlace(data, Consume(data, pos, '{').value, NEW_COMMAND);
  }

  lemma {:induction false} CommandsGrow(data: string, pos: nat, items: seq<RuleCommand>)
    requires CommandItems(data, pos, items).Ok?
    ensures items <= CommandItems(data, pos, items).value
    decreases Measure(data, pos)
  {
    hide ReadCommand, AfterItem, SkipBlanks;
    var p := SkipBlanks(data, pos);
    if data[p] != ']' {
      var r := ReadCommand(data, p);
      CommandsGrow(data, AfterItem(data, r.pos), items + [r.value]);
    }
  }

  lemma {:induction false} CommandsPlace(data: string, pos: nat, items: seq<RuleCommand>, j: nat) returns (n: nat)
    requires CommandItems(data, pos, items).Ok?
    requires |items| <= j < |CommandItems(data, pos, items).value|
    requires CommandItems(data, pos, items).value[j] != NEW_COMMAND
    ensures CommandsCome(data, pos, n) && BehindMember(data, n)
    decreases Measure(data, pos)
  {
    hide ReadCommand, AfterItem, SkipBlanks, CommandOpens, BehindMember;
    var p := SkipBlanks(data, pos);
    var r := ReadCommand(data, p);
    var next := AfterItem(data, r.pos);
    CommandsGrow(data, next, items + [r.value]);
    if j == |items| {
      n := CommandRecordPlace(data, p);
    } else {
      n := CommandsPlace(data, next, items + [r.value], j);
    }
  }

  // ----- Rules -----

  lemma {:induction false} ConditionsInRule(data: string, pos: nat, rule: Rule, j: nat) returns (n: nat)
    requires var r := RuleMembers(data, pos, rule);
      && r.Ok? && r.value.conditions != rule.conditions
      && j < |r.value.conditions| && r.value.conditions[j] != NEW_CONDITION
    ensures RuleComes(data, pos, rule, InCondition, n) && BehindMember(data, n)
    decreases Measure(data, pos)
  {
    hide NextMember, AfterItem, SkipBlanks, ConditionsCome, BehindMember, Skip, ScanValue, ScanBool, StringScan;
    hide ConditionItems, CommandItems, RuleKeyOf;
    var p, key := NextMember(data, pos).pos, NextMember(data, pos).key;
    var r := RuleMember(data, p, key, rule);
    if r.value.conditions != RuleMembers(data, pos, rule).value.conditions {
      n := ConditionsInRule(data, AfterItem(data, r.pos), r.value, j);
    } else {
      n := ConditionsPlace(data, Consume(data, p, '[').value, [], j);
    }
  }

  lemma {:induction false} CommandsInRule(data: string, pos: nat, rule: Rule, j: nat) returns (n: nat)
    requires var r := RuleMembers(data, pos, rule);
      && r.Ok? && r.value.commands != rule.commands
      && j < |r.value.commands| && r.value.commands[j] != NEW_COMMAND
    ensures RuleComes(data, pos, rule, InCommand, n) && BehindMember(data, n)
    decreases Measure(data, pos)
  {
    hide NextMember, AfterItem, SkipBlanks, CommandsCome, BehindMember, Skip, ScanValue, ScanBool, StringScan;
    hide ConditionItems, CommandItems, RuleKeyOf;
    var p, key := NextMember(data, pos).pos, NextMember(data, pos).key;
    var r := RuleMember(data, p, key, rule);
    if r.value.commands != RuleMembers(data, pos, rule).value.commands {
      n := CommandsInRule(data, AfterItem(data, r.pos), r.value, j);
    } else {
      n := CommandsPlace(data, Consume(data, p, '[').value, [], j);
    }
  }

  lemma {:induction false} RulePlace(data: string, pos: nat, rule: Rule) returns (n: nat)
    requires RuleMembers(data, pos, rule).Ok? && !NextMember(data, pos).End?
    ensures RuleComes(data, pos, rule, InRule, n) && BehindMember(data, n)
    decreases Measure(data, pos)
  {
    hide NextMember, RuleMember, AfterItem, SkipBlanks, BehindMember, MemberComes;
    var r := RuleMember(data, NextMember(data, pos).pos, NextMember(data, pos).key, rule);
    var next := AfterItem(data, r.pos);
    if NextMember(data, next).End? {
      n := LastMember(data, r.pos);
    } else {
      n := RulePlace(data, next, r.value);
    }
  }

  /** The record is there: the rule itself, or its j-th condition or command, is not what an empty record
      reads as. */
  predicate HasRecord(rule: Rule, level: Level, j: nat) {
    match level
    case InRule => rule.(id := 0) != NEW_RULE
    case InCondition => j < |rule.conditions| && rule.conditions[j] != NEW_CONDITION
    case InCommand => j < |rule.commands| && rule.commands[j] != NEW_COMMAND
  }

  lemma RuleRecordPlace(data: string, pos: nat, level: Level, j: nat) returns (n: nat)
    requires ReadRule(data, pos).Ok? && HasRecord(ReadRule(data, pos).value, level, j)
    ensures RuleOpens(data, pos, level, n) && BehindMember(data, n)
  {
    hide NextMember, RuleMember, AfterItem, SkipBlanks, RuleComes;
    var p := Consume(data, pos, '{').value;
    match level
    case InRule => n := RulePlace(data, p, NEW_RULE);
    case InCondition => n := ConditionsInRule(data, p, NEW_RULE, j);
    case InCommand => n := CommandsInRule(data, p, NEW_RULE, j);
  }

  lemma {:induction false} RulesGrow(data: string, pos: nat, items: seq<Rule>)
    requires RuleItems(data, pos, items).Ok?
    ensures items <= RuleItems(data, pos, items).value
    decreases Measure(data, pos)
  {
    hide ReadRule, AfterItem, SkipBlanks, WithId;
    var p := SkipBlanks(data, pos);
    if data[p] != ']' {
      var r := ReadRule(data, p);
      RulesGrow(data, AfterItem(data, r.pos), items + [WithId(items, r.value)]);
    }
  }

  lemma {:induction false} RulesPlace(data: string, pos: nat, items: seq<Rule>, i: nat, level: Level, j: nat)
    returns (n: nat)
    requires RuleItems(data, pos, items).Ok? && |items| <= i < |RuleItems(data, pos, items).value|
    requires HasRecord(RuleItems(data, pos, items).value[i], level, j)
    ensures RulesCome(data, pos, level, n) && BehindMember(data, n)
    decreases Measure(data, pos)
  {
    hide ReadRule, AfterItem, SkipBlanks, RuleOpens, BehindMember, NextId;
    var p := SkipBlanks(data, pos);
    var r := ReadRule(data, p);
    var next := AfterItem(data, r.pos);
    var more := items + [WithId(items, r.value)];
    RulesGrow(data, next, more);
    if i == |items| {
      n := RuleRecordPlace(data, p, level, j);
    } else {
      n := RulesPlace(data, next, more, i, level, j);
    }
  }

  /** In a file that can be read, a rule, condition or command that reads as anything gives a place for an
      unknown member inside a record of its kind, behind a member. */
  lemma RecordGivesAPlace(a: string, i: nat, level: Level, j: nat) returns (n: nat)
    requires ReadRules(a).Ok? && i < |ReadRules(a).value| && HasRecord(ReadRules(a).value[i], level, j)
    ensures ComesTo(a, level, n) && (a[n] == ',' || a[n] == '}')
  {
    hide SkipBlanks, RuleItems, RulesCome, HasRecord;
    n := RulesPlace(a, Consume(a, 0, '[').value, [], i, level, j);
  }
}
