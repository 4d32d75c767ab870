/** The parse functions on two texts that agree over a stretch (see ReaderFrames): the same records,
    rejections and exceptions, position for position. */
module RuleFrames {
  import opened Text
  import opened JsonReader
  import opened Rules
  import opened RuleReader
  import opened ReaderFrames

  function Shifted<T>(r: Parsed<T>, shift: nat): Parsed<T> {
    match r
    case Ok(value, pos) => Ok(value, pos + shift)
    case Rejected => Rejected
    case Thrown => Thrown
  }

  /** Nothing behind the stretch was needed. */
  predicate Inside<T>(f: Frame, r: Parsed<T>) {
    f.Whole() || (r.Ok? && r.pos <= f.to)
  }

  function ShiftedMember(m: MemberScan, shift: nat): MemberScan {
    match m
    case End(pos) => End(pos + shift)
    case Member(key, pos) => Member(key, pos + shift)
    case Malformed => Malformed
  }

  lemma MemberSame(f: Frame, p: nat)
    requires f.Valid() && f.Has(p)
    requires f.Whole() || (!NextMember(f.a, p).Malformed? && NextMember(f.a, p).pos <= f.to)
    ensures NextMember(f.b, p + f.shift) == ShiftedMember(NextMember(f.a, p), f.shift)
    ensures !NextMember(f.a, p).Malformed? ==> f.Has(NextMember(f.a, p).pos)
    ensures !NextMember(f.a, p).Malformed? ==> NextMember(f.a, p).pos + f.shift <= |f.b|
  {
    hide SkipBlanks, StringScan;
    var q := SkipBlanks(f.a, p);
    BlanksSame(f, p);
    if q < |f.a| && f.a[q] != '}' {
      if f.Whole() || StringScan(f.a, q).ok {
        StringSame(f, q);
        BlanksIncrease(f.a, StringScan(f.a, q).pos);
        ConsumeSame(f, StringScan(f.a, q).pos, ':');
      }
    }
  }

  lemma BlanksIncrease(data: string, p: nat)
    ensures p <= SkipBlanks(data, p)
  {}

  // ----- Conditions -----

  lemma ConditionMemberSame(f: Frame, p: nat, key: string, c: RuleCondition)
    requires f.Valid() && f.Has(p) && p <= |f.a| && p + f.shift <= |f.b| && Inside(f, ConditionMember(f.a, p, key, c))
    ensures ConditionMember(f.b, p + f.shift, key, c) == Shifted(ConditionMember(f.a, p, key, c), f.shift)
  {
    hide Skip, ScanValue, SetConditionMember, ConditionKeyOf;
    if ConditionKeyOf(key) == OtherConditionKey {
      SkipSame(f, p);
    } else {
      ValueSame(f, p);
    }
  }

  lemma {:induction false} ConditionMembersSame(f: Frame, p: nat, c: RuleCondition)
    requires f.Valid() && f.Has(p) && Inside(f, ConditionMembers(f.a, p, c))
    ensures ConditionMembers(f.b, p + f.shift, c) == Shifted(ConditionMembers(f.a, p, c), f.shift)
    decreases Measure(f.a, p)
  {
    hide NextMember, ConditionMember, AfterItem, SkipBlanks;
    MemberSame(f, p);
    match NextMember(f.a, p)
    case Malformed =>
    case End(_) =>
    case Member(key, q) =>
      ConditionMemberSame(f, q, key, c);
      var r := ConditionMember(f.a, q, key, c);
      if r.Ok? {
        ItemPassedSame(f, r.pos);
        ConditionMembersSame(f, AfterItem(f.a, r.pos), r.value);
      }
  }

  /** Going on behind an item: when the position reached is inside, so was the separator. */
  lemma ItemPassedSame(f: Frame, p: nat)
    requires f.Valid() && f.Has(p)
    requires f.Whole() || AfterItem(f.a, p) < f.to
    ensures AfterItem(f.b, p + f.shift) == AfterItem(f.a, p) + f.shift && f.Has(AfterItem(f.a, p))
  {
    AfterItemSame(f, p);
  }

  lemma ReadConditionSame(f: Frame, p: nat)
    requires f.Valid() && f.Has(p) && Inside(f, ReadCondition(f.a, p))
    ensures ReadCondition(f.b, p + f.shift) == Shifted(ReadCondition(f.a, p), f.shift)
  {
    hide ConditionMembers, SkipBlanks;
    BlanksSame(f, p);
    ConsumeSame(f, p, '{');
    var q := Consume(f.a, p, '{');
    if q.Some? {
      ConditionMembersSame(f, q.value, NEW_CONDITION);
    }
  }

  lemma {:induction false} ConditionItemsSame(f: Frame, p: nat, items: seq<RuleCondition>)
    requires f.Valid() && f.Has(p) && Inside(f, ConditionItems(f.a, p, items))
    ensures ConditionItems(f.b, p + f.shift, items) == Shifted(ConditionItems(f.a, p, items), f.shift)
    decreases Measure(f.a, p)
  {
    hide ReadCondition, AfterItem, SkipBlanks;
    BlanksSame(f, p);
    var q := SkipBlanks(f.a, p);
    if q < |f.a| && f.a[q] != ']' {
      ReadConditionSame(f, q);
      var r := ReadCondition(f.a, q);
      if r.Ok? {
        ItemPassedSame(f, r.pos);
        ConditionItemsSame(f, AfterItem(f.a, r.pos), items + [r.value]);
      }
    }
  }

  // ----- Commands -----

  lemma CommandMemberSame(f: Frame, p: nat, key: string, c: RuleCommand)
    requires f.Valid() && f.Has(p) && p <= |f.a| && p + f.shift <= |f.b| && Inside(f, CommandMember(f.a, p, key, c))
    ensures CommandMember(f.b, p + f.shift, key, c) == Shifted(CommandMember(f.a, p, key, c), f.shift)
  {
    hide Skip, ScanValue, SetCommandMember, CommandKeyOf;
    if CommandKeyOf(key) == OtherCommandKey {
      SkipSame(f, p);
    } else {
      ValueSame(f, p);
    }
  }

  lemma {:induction false} CommandMembersSame(f: Frame, p: nat, c: RuleCommand)
    requires f.Valid() && f.Has(p) && Inside(f, CommandMembers(f.a, p, c))
    ensures CommandMembers(f.b, p + f.shift, c) == Shifted(CommandMembers(f.a, p, c), f.shift)
    decreases Measure(f.a, p)
  {
    hide NextMember, CommandMember, AfterItem, SkipBlanks;
    MemberSame(f, p);
    match NextMember(f.a, p)
    case Malformed =>
    case End(_) =>
    case Member(key, q) =>
      CommandMemberSame(f, q, key, c);
      var r := CommandMember(f.a, q, key, c);
      if r.Ok? {
        ItemPassedSame(f, r.pos);
        CommandMembersSame(f, AfterItem(f.a, r.pos), r.value);
      }
  }

  lemma ReadCommandSame(f: Frame, p: nat)
    requires f.Valid() && f.Has(p) && Inside(f, ReadCommand(f.a, p))
    ensures ReadCommand(f.b, p + f.shift) == Shifted(ReadCommand(f.a, p), f.shift)
  {
    hide CommandMembers, SkipBlanks;
    BlanksSame(f, p);
    ConsumeSame(f, p, '{');
    var q := Consume(f.a, p, '{');
    if q.Some? {
      CommandMembersSame(f, q.value, NEW_COMMAND);
    }
  }

  lemma {:induction false} CommandItemsSame(f: Frame, p: nat, items: seq<RuleCommand>)
    requires f.Valid() && f.Has(p) && Inside(f, CommandItems(f.a, p, items))
    ensures CommandItems(f.b, p + f.shift, items) == Shifted(CommandItems(f.a, p, items), f.shift)
    decreases Measure(f.a, p)
  {
    hide ReadCommand, AfterItem, SkipBlanks;
    BlanksSame(f, p);
    var q := SkipBlanks(f.a, p);
    if q < |f.a| && f.a[q] != ']' {
      ReadCommandSame(f, q);
      var r := ReadCommand(f.a, q);
      if r.Ok? {
        ItemPassedSame(f, r.pos);
        CommandItemsSame(f, AfterItem(f.a, r.pos), items + [r.value]);
      }
    }
  }

  // ----- Rules -----

  lemma RuleMemberSame(f: Frame, p: nat, key: string, rule: Rule)
    requires f.Valid() && f.Has(p) && p <= |f.a| && p + f.shift <= |f.b| && Inside(f, RuleMember(f.a, p, key, rule))
    ensures RuleMember(f.b, p + f.shift, key, rule) == Shifted(RuleMember(f.a, p, key, rule), f.shift)
  {
    hide Skip, ScanValue, ScanBool, StringScan, ConditionItems, CommandItems, RuleKeyOf, SkipBlanks;
    match RuleKeyOf(key)
    case IdKey => ValueSame(f, p);
    case EnabledKey => BoolSame(f, p);
    case NameKey => StringSame(f, p);
    case ConditionsKey =>
      BlanksSame(f, p);
      ConsumeSame(f, p, '[');
      if Consume(f.a, p, '[').Some? {
        ConditionItemsSame(f, Consume(f.a, p, '[').value, []);
      }
    case CommandsKey =>
      BlanksSame(f, p);
      ConsumeSame(f, p, '[');
      if Consume(f.a, p, '[').Some? {
        CommandItemsSame(f, Consume(f.a, p, '[').value, []);
      }
    case OtherRuleKey => SkipSame(f, p);
  }

  lemma {:induction false} RuleMembersSame(f: Frame, p: nat, rule: Rule)
    requires f.Valid() && f.Has(p) && Inside(f, RuleMembers(f.a, p, rule))
    ensures RuleMembers(f.b, p + f.shift, rule) == Shifted(RuleMembers(f.a, p, rule), f.shift)
    decreases Measure(f.a, p)
  {
    hide NextMember, RuleMember, AfterItem, SkipBlanks;
    MemberSame(f, p);
    match NextMember(f.a, p)
    case Malformed =>
    case End(_) =>
    case Member(key, q) =>
      RuleMemberSame(f, q, key, rule);
      var r := RuleMember(f.a, q, key, rule);
      if r.Ok? {
        ItemPassedSame(f, r.pos);
        RuleMembersSame(f, AfterItem(f.a, r.pos), r.value);
      }
  }

  lemma ReadRuleSame(f: Frame, p: nat)
    requires f.Valid() && f.Has(p) && Inside(f, ReadRule(f.a, p))
    ensures ReadRule(f.b, p + f.shift) == Shifted(ReadRule(f.a, p), f.shift)
  {
    hide RuleMembers, SkipBlanks;
    BlanksSame(f, p);
    ConsumeSame(f, p, '{');
    var q := Consume(f.a, p, '{');
    if q.Some? {
      RuleMembersSame(f, q.value, NEW_RULE);
    }
  }

  lemma {:induction false} RuleItemsSame(f: Frame, p: nat, items: seq<Rule>)
    requires f.Valid() && f.Has(p) && Inside(f, RuleItems(f.a, p, items))
    ensures RuleItems(f.b, p + f.shift, items) == Shifted(RuleItems(f.a, p, items), f.shift)
    decreases Measure(f.a, p)
  {
    hide ReadRule, AfterItem, SkipBlanks, WithId;
    BlanksSame(f, p);
    var q := SkipBlanks(f.a, p);
    if q < |f.a| && f.a[q] != ']' {
      ReadRuleSame(f, q);
      var r := ReadRule(f.a, q);
      if r.Ok? {
        ItemPassedSame(f, r.pos);
        RuleItemsSame(f, AfterItem(f.a, r.pos), items + [WithId(items, r.value)]);
      }
    }
  }
}
