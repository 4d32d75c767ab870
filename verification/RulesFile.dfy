/** When saving and loading the rules keeps them. */
module RulesFile {
  import opened Options
  import opened Text
  import opened Numbers
  import opened Rules
  import opened RuleReader
  import opened RulePrinter
  import opened RoundTrip

  // ----- Well-formed rules: checkable record by record, before anything is printed -----

  /** The fields the printer drops are at their defaults, a plain number has at most six significant
      digits, and the number of a quoted literal is the one the reader derives. */
  predicate WellFormedCondition(c: RuleCondition) {
    if c.valueInputType != UnknownInput then
      c.valueString == "" && c.valueNumber == ZERO && !c.valueIsString
    else
      && c.valueInputAddress == 0
      && (if c.valueIsString then LiteralNumber(c.inputType, c.valueString, true) == Some(c.valueNumber)
          else c.valueString == "" && DigitCount(c.valueNumber) <= PRECISION)
  }

  /** Data that goes unquoted into the file is one number to the reader. */
  predicate WellFormedCommand(l: Layout, c: RuleCommand) {
    c.data != "" && PrintedBare(l, c) ==> NumberLexeme(c.data)
  }

  predicate WellFormedRule(l: Layout, r: Rule) {
    && r.id != 0
    && (forall i :: 0 <= i < |r.conditions| ==> WellFormedCondition(r.conditions[i]))
    && (forall i :: 0 <= i < |r.commands| ==> WellFormedCommand(l, r.commands[i]))
  }

  predicate WellFormedRules(l: Layout, rules: seq<Rule>) {
    forall i :: 0 <= i < |rules| ==> WellFormedRule(l, rules[i])
  }

  lemma ConditionKept(c: RuleCondition)
    ensures RereadCondition(c) == Some(c) <==> WellFormedCondition(c)
  {
    hide LiteralNumber, Round6, DigitCount;
    Round6Exact(c.valueNumber);
  }

  lemma {:induction false} ConditionsKept(cs: seq<RuleCondition>)
    ensures RereadConditions(cs) == Some(cs) <==> forall i :: 0 <= i < |cs| ==> WellFormedCondition(cs[i])
    decreases |cs|
  {
    hide RereadCondition, WellFormedCondition;
    if cs != [] {
      ConditionKept(cs[0]);
      ConditionsKept(cs[1..]);
      assert cs == [cs[0]] + cs[1..];
      assert forall i :: 0 < i < |cs| ==> cs[i] == cs[1..][i - 1];
      assert forall i :: 0 <= i < |cs[1..]| ==> cs[1..][i] == cs[i + 1];
      if RereadConditions(cs) == Some(cs) {
        var more := RereadConditions(cs[1..]).value;
        assert ([RereadCondition(cs[0]).value] + more)[1..] == more;
        assert RereadCondition(cs[0]).value == cs[0];
      }
    }
  }

  lemma {:induction false} CommandsKept(l: Layout, cs: seq<RuleCommand>)
    ensures RereadCommands(l, cs) ==
      if forall i :: 0 <= i < |cs| ==> WellFormedCommand(l, cs[i]) then Back(cs) else Unreadable
    decreases |cs|
  {
    hide PrintedBare, NumberLexeme;
    if cs != [] {
      CommandsKept(l, cs[1..]);
      assert cs == [cs[0]] + cs[1..];
      assert forall i :: 0 < i < |cs| ==> cs[i] == cs[1..][i - 1];
      assert forall i :: 0 <= i < |cs[1..]| ==> cs[1..][i] == cs[i + 1];
    }
  }

  lemma RuleKept(l: Layout, r: Rule)
    requires r.id != 0
    ensures RereadRule(l, r) == Back(r) <==> WellFormedRule(l, r)
  {
    hide RereadConditions, RereadCommands, WellFormedCondition, WellFormedCommand;
    ConditionsKept(r.conditions);
    CommandsKept(l, r.commands);
  }

  lemma RereadKeepsId(l: Layout, r: Rule)
    ensures RereadRule(l, r).Back? ==> RereadRule(l, r).value.id == r.id
  {}

  lemma {:induction false} NextIdPositive(rules: seq<Rule>)
    ensures NextId(rules) >= 1
    decreases |rules|
  {
    if rules != [] {
      NextIdPositive(rules[..|rules| - 1]);
    }
  }

  /** The rules come back in number and order. */
  lemma {:induction false} RereadCount(l: Layout, rules: seq<Rule>, before: seq<Rule>)
    ensures RereadRules(l, rules, before).Back? ==>
      |RereadRules(l, rules, before).value| == |before| + |rules| && before <= RereadRules(l, rules, before).value
    decreases |rules|
  {
    hide RereadRule, WithId;
    if rules != [] && RereadRule(l, rules[0]).Back? {
      RereadCount(l, rules[1..], before + [WithId(before, RereadRule(l, rules[0]).value)]);
    }
  }

  lemma {:induction false} RulesKept(l: Layout, rules: seq<Rule>, before: seq<Rule>)
    ensures RereadRules(l, rules, before) == Back(before + rules) <==> WellFormedRules(l, rules)
    decreases |rules|
  {
    hide RereadRule, WellFormedRule, NextId;
    if rules == [] {
      assert before + [] == before;
    } else {
      var r := rules[0];
      assert forall i :: 0 <= i < |rules[1..]| ==> rules[1..][i] == rules[i + 1];
      assert forall i :: 0 < i < |rules| ==> rules[i] == rules[1..][i - 1];
      if RereadRule(l, r).Back? {
        var r' := WithId(before, RereadRule(l, r).value);
        RulesKept(l, rules[1..], before + [r']);
        RereadCount(l, rules[1..], before + [r']);
        RereadKeepsId(l, r);
        NextIdPositive(before);
        FirstKept(l, r, before);
        if r' == r {
          assert (before + [r']) + rules[1..] == before + rules;
        } else {
          assert (before + rules)[|before|] == r;
        }
      } else {
        NotKept(l, r);
      }
    }
  }

  lemma FirstKept(l: Layout, r: Rule, before: seq<Rule>)
    requires RereadRule(l, r).Back?
    ensures WithId(before, RereadRule(l, r).value) == r <==> WellFormedRule(l, r)
  {
    hide NextId, RereadRule, WellFormedCondition, WellFormedCommand;
    RereadKeepsId(l, r);
    NextIdPositive(before);
    if r.id != 0 {
      RuleKept(l, r);
    }
  }

  lemma NotKept(l: Layout, r: Rule)
    requires !RereadRule(l, r).Back?
    ensures !WellFormedRule(l, r)
  {
    hide RereadRule, WellFormedCondition, WellFormedCommand;
    if r.id != 0 {
      RuleKept(l, r);
    }
  }

  /** Loading what was saved gives exactly the saved rules if and only if they are well-formed. */
  lemma SavedRulesReadBack(l: Layout, rules: seq<Rule>)
    requires BlankLayout(l)
    ensures var parsed := ReadRules(RulesText(l, rules));
      parsed.Ok? && parsed.value == rules <==> WellFormedRules(l, rules)
  {
    hide RereadRules, WellFormedRules, ReadRules, RulesText, BlankLayout;
    RereadIsRead(l, rules);
    RulesKept(l, rules, []);
    assert [] + rules == rules;
  }

  lemma LayoutsAreBlank()
    ensures BlankLayout(FILE_LAYOUT) && BlankLayout(HTTP_LAYOUT)
  {}

  // ----- One round trip is enough -----

  lemma ConditionSettles(c: RuleCondition)
    ensures RereadCondition(c).Some? ==> WellFormedCondition(RereadCondition(c).value)
  {
    hide LiteralNumber, Round6, DigitCount;
    Round6Fits(c.valueNumber);
  }

  lemma Round6Fits(d: Number)
    ensures DigitCount(Round6(d)) <= PRECISION
  {
    hide RoundHalfEven, NatToString, Normalize;
    var n := DigitCount(d);
    if n > PRECISION {
      var v := RoundHalfEven(d.mantissa, Pow10(n - PRECISION));
      RoundedFits(d);
      NormalizeShrinks(d.neg, v, d.exponent + n - PRECISION);
      MillionIsNotNormal(d.neg, d.exponent + n - PRECISION);
      NumeralLength(Round6(d).mantissa, PRECISION);
      MillionIsLarge();
    }
  }

  lemma MillionIsLarge()
    ensures Pow10(PRECISION) > 1
  {
    Pow10AtLeastTen(PRECISION);
  }

  lemma {:induction false} ConditionsSettle(cs: seq<RuleCondition>)
    ensures RereadConditions(cs).Some? ==>
      forall i :: 0 <= i < |RereadConditions(cs).value| ==> WellFormedCondition(RereadConditions(cs).value[i])
    decreases |cs|
  {
    hide RereadCondition, WellFormedCondition;
    if cs != [] {
      ConditionSettles(cs[0]);
      ConditionsSettle(cs[1..]);
    }
  }

  lemma RuleSettles(l: Layout, r: Rule, before: seq<Rule>)
    ensures RereadRule(l, r).Back? ==> WellFormedRule(l, WithId(before, RereadRule(l, r).value))
  {
    hide RereadConditions, RereadCommands, WellFormedCondition, WellFormedCommand, NextId;
    ConditionsSettle(r.conditions);
    CommandsKept(l, r.commands);
    NextIdPositive(before);
  }

  lemma {:induction false} RulesSettle(l: Layout, rules: seq<Rule>, before: seq<Rule>)
    requires WellFormedRules(l, before)
    ensures RereadRules(l, rules, before).Back? ==> WellFormedRules(l, RereadRules(l, rules, before).value)
    decreases |rules|
  {
    hide RereadRule, WellFormedRule, WithId;
    if rules != [] && RereadRule(l, rules[0]).Back? {
      RuleSettles(l, rules[0], before);
      RulesSettle(l, rules[1..], before + [WithId(before, RereadRule(l, rules[0]).value)]);
    }
  }

  /** Whatever was saved: if it can be loaded at all, then what is loaded is well-formed, and from
      then on saving and loading changes nothing any more. */
  lemma OneRoundTripSettles(l: Layout, rules: seq<Rule>)
    requires BlankLayout(l)
    ensures var first := ReadRules(RulesText(l, rules));
      first.Ok? ==>
        && WellFormedRules(l, first.value)
        && var second := ReadRules(RulesText(l, first.value));
           second.Ok? && second.value == first.value
  {
    hide RereadRules, WellFormedRules, ReadRules, RulesText, BlankLayout;
    RereadIsRead(l, rules);
    NoRulesWellFormed(l);
    RulesSettle(l, rules, []);
    var first := ReadRules(RulesText(l, rules));
    if first.Ok? {
      SavedRulesReadBack(l, first.value);
    }
  }

  lemma NoRulesWellFormed(l: Layout)
    ensures WellFormedRules(l, [])
  {}

  // ----- The two printers -----

  lemma {:induction false} PrintsAgree(rules: seq<Rule>, before: seq<Rule>)
    ensures RereadRules(FILE_LAYOUT, rules, before).Unreadable? ||
            RereadRules(FILE_LAYOUT, rules, before) == RereadRules(HTTP_LAYOUT, rules, before)
    ensures !RereadRules(HTTP_LAYOUT, rules, before).Unreadable?
    decreases |rules|
  {
    hide RereadRule, WithId;
    if rules != [] {
      RulePrintsAgree(rules[0]);
      if RereadRule(HTTP_LAYOUT, rules[0]).Back? {
        PrintsAgree(rules[1..], before + [WithId(before, RereadRule(HTTP_LAYOUT, rules[0]).value)]);
      }
    }
  }

  lemma RulePrintsAgree(r: Rule)
    ensures RereadRule(FILE_LAYOUT, r).Unreadable? || RereadRule(FILE_LAYOUT, r) == RereadRule(HTTP_LAYOUT, r)
    ensures !RereadRule(HTTP_LAYOUT, r).Unreadable?
  {
    hide RereadConditions, RereadCommands;
    CommandsKept(FILE_LAYOUT, r.commands);
    CommandsKept(HTTP_LAYOUT, r.commands);
    assert forall i :: 0 <= i < |r.commands| ==> WellFormedCommand(HTTP_LAYOUT, r.commands[i]);
  }

  /** Both prints of a rule list read the same, except that the file alone can be unreadable: the
      print for HTTP quotes all command data. */
  lemma TwoPrintersMeanTheSame(rules: seq<Rule>)
    ensures var file, http := ReadRules(RulesText(FILE_LAYOUT, rules)), ReadRules(RulesText(HTTP_LAYOUT, rules));
      && (WellFormedRules(FILE_LAYOUT, rules) ==> file.Ok? && http.Ok? && file.value == http.value == rules)
      && (file.Ok? ==> http.Ok? && file.value == http.value)
      && (file.Thrown? ==> http.Thrown?)
      && !http.Rejected?
  {
    hide RereadRules, WellFormedRules, ReadRules, RulesText, BlankLayout;
    LayoutsAreBlank();
    RereadIsRead(FILE_LAYOUT, rules);
    RereadIsRead(HTTP_LAYOUT, rules);
    PrintsAgree(rules, []);
    SavedRulesReadBack(FILE_LAYOUT, rules);
  }

  /** A rule that loads and cannot be saved: the data of a variable command is written unquoted when
      it is made of digits, signs and points only, and ".5" does not read back that way. */
  lemma SavingCanLoseTheFile(id: uint32, address: uint32)
    requires id != 0
    ensures var rules := [Rule(id, true, "", [], [RuleCommand(SetVar, ".5", address)])];
      && ReadRules(RulesText(HTTP_LAYOUT, rules)).Ok?
      && ReadRules(RulesText(FILE_LAYOUT, rules)) == Rejected
  {
    var c := RuleCommand(SetVar, ".5", address);
    var r := Rule(id, true, "", [], [c]);
    LostCommand(c);
    hide *;
    LayoutsAreBlank();
    RereadIsRead(FILE_LAYOUT, [r]);
    RereadIsRead(HTTP_LAYOUT, [r]);
    OneRule(FILE_LAYOUT, r);
    OneRule(HTTP_LAYOUT, r);
    LostRule(r);
    Outcomes(RereadRules(FILE_LAYOUT, [r], []), ReadRules(RulesText(FILE_LAYOUT, [r])));
    Outcomes(RereadRules(HTTP_LAYOUT, [r], []), ReadRules(RulesText(HTTP_LAYOUT, [r])));
  }

  lemma Outcomes(r: Reread<seq<Rule>>, parsed: Parsed<seq<Rule>>)
    requires Outcome(r, parsed)
    ensures r.Back? ==> parsed.Ok?
    ensures r.Unreadable? ==> parsed == Rejected
  {}

  lemma OneRule(l: Layout, r: Rule)
    ensures RereadRule(l, r).Unreadable? ==> RereadRules(l, [r], []).Unreadable?
    ensures RereadRule(l, r).Back? ==> RereadRules(l, [r], []).Back?
  {
    hide RereadRule;
  }

  lemma LostCommand(c: RuleCommand)
    requires c.data == ".5" && c.kind == SetVar
    ensures !WellFormedCommand(FILE_LAYOUT, c) && WellFormedCommand(HTTP_LAYOUT, c)
  {
    assert c.data[0] == '.';
  }

  lemma LostRule(r: Rule)
    requires r.conditions == [] && |r.commands| == 1
    requires !WellFormedCommand(FILE_LAYOUT, r.commands[0]) && WellFormedCommand(HTTP_LAYOUT, r.commands[0])
    ensures RereadRule(FILE_LAYOUT, r).Unreadable? && RereadRule(HTTP_LAYOUT, r).Back?
  {
    hide WellFormedCommand, RereadCommands;
    CommandsKept(FILE_LAYOUT, r.commands);
    CommandsKept(HTTP_LAYOUT, r.commands);
  }
}
