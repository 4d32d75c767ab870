/** A member nobody knows, put into a rule, a condition or a command anywhere in a rules file, leaves
    what is read from the file unchanged (server/rules.hpp, lines 258-315, 391-398, 444-451, 545-552). */
module UnknownMembers {
  import opened Text
  import opened JsonReader
  import opened Rules
  import opened RuleReader
  import opened JsonSkip
  import opened ReaderFrames
  import opened RuleFrames

  /** The record a member is put into. */
  datatype Level = InRule | InCondition | InCommand

  predicate Unknown(level: Level, key: string) {
    match level
    case InRule => RuleKeyOf(key) == OtherRuleKey
    case InCondition => ConditionKeyOf(key) == OtherConditionKey
    case InCommand => CommandKeyOf(key) == OtherCommandKey
  }

  // ----- Places in a text: the reader comes to position `n` inside a record -----

  /** The loop over the members of a condition comes to `n` behind one of them. */
  predicate ConditionComes(data: string, pos: nat, c: RuleCondition, n: nat)
    decreases Measure(data, pos)
  {
    match NextMember(data, pos)
    case Malformed => false
    case End(_) => false
    case Member(key, p) =>
      match ConditionMember(data, p, key, c)
      case Rejected => false
      case Thrown => false
      case Ok(c', q) => SkipBlanks(data, q) == n || ConditionComes(data, AfterItem(data, q), c', n)
  }

  /** A condition is opened at `n`, or its members come to `n`. */
  predicate ConditionOpens(data: string, pos: nat, n: nat) {
    if n < |data| && data[n] == '{' then SkipBlanks(data, pos) == n
    else
      match Consume(data, pos, '{')
      case None => false
      case Some(p) => ConditionComes(data, p, NEW_CONDITION, n)
  }

  predicate ConditionsCome(data: string, pos: nat, n: nat)
    decreases Measure(data, pos)
  {
    var p := SkipBlanks(data, pos);
    && p < |data| && data[p] != ']'
    && ( || ConditionOpens(data, p, n)
         || match ReadCondition(data, p)
            case Rejected => false
            case Thrown => false
            case Ok(_, q) => ConditionsCome(data, AfterItem(data, q), n))
  }

  predicate CommandComes(data: string, pos: nat, c: RuleCommand, n: nat)
    decreases Measure(data, pos)
  {
    match NextMember(data, pos)
    case Malformed => false
    case End(_) => false
    case Member(key, p) =>
      match CommandMember(data, p, key, c)
      case Rejected => false
      case Thrown => false
      case Ok(c', q) => SkipBlanks(data, q) == n || CommandComes(data, AfterItem(data, q), c', n)
  }

  predicate CommandOpens(data: string, pos: nat, n: nat) {
    if n < |data| && data[n] == '{' then SkipBlanks(data, pos) == n
    else
      match Consume(data, pos, '{')
      case None => false
      case Some(p) => CommandComes(data, p, NEW_COMMAND, n)
  }

  predicate CommandsCome(data: string, pos: nat, n: nat)
    decreases Measure(data, pos)
  {
    var p := SkipBlanks(data, pos);
    && p < |data| && data[p] != ']'
    && ( || CommandOpens(data, p, n)
         || match ReadCommand(data, p)
            case Rejected => false
            case Thrown => false
            case Ok(_, q) => CommandsCome(data, AfterItem(data, q), n))
  }

  /** The conditions or the commands of a rule contain the place. */
  predicate MemberComes(data: string, pos: nat, key: string, level: Level, n: nat) {
    if level == InCondition && RuleKeyOf(key) == ConditionsKey then
      var p := Consume(data, pos, '[');
      p.Some? && ConditionsCome(data, p.value, n)
    else if level == InCommand && RuleKeyOf(key) == CommandsKey then
      var p := Consume(data, pos, '[');
      p.Some? && CommandsCome(data, p.value, n)
    else
      false
  }

  predicate RuleComes(data: string, pos: nat, rule: Rule, level: Level, n: nat)
    decreases Measure(data, pos)
  {
    match NextMember(data, pos)
    case Malformed => false
    case End(_) => false
    case Member(key, p) =>
      || MemberComes(data, p, key, level, n)
      || match RuleMember(data, p, key, rule)
         case Rejected => false
         case Thrown => false
         case Ok(rule', q) =>
           (level == InRule && SkipBlanks(data, q) == n) || RuleComes(data, AfterItem(data, q), rule', level, n)
  }

  predicate RuleOpens(data: string, pos: nat, level: Level, n: nat) {
    if level == InRule && n < |data| && data[n] == '{' then SkipBlanks(data, pos) == n
    else
      match Consume(data, pos, '{')
      case None => false
      case Some(p) => RuleComes(data, p, NEW_RULE, level, n)
  }

  predicate RulesCome(data: string, pos: nat, level: Level, n: nat)
    decreases Measure(data, pos)
  {
    var p := SkipBlanks(data, pos);
    && p < |data| && data[p] != ']'
    && ( || RuleOpens(data, p, level, n)
         || match ReadRule(data, p)
            case Rejected => false
            case Thrown => false
            case Ok(_, q) => RulesCome(data, AfterItem(data, q), level, n))
  }

  /** Reading the file, the reader comes to `n`: at the brace that opens a record of the level, or
      behind a member of one, at a comma or at the closing brace. */
  predicate ComesTo(data: string, level: Level, n: nat) {
    && n < |data| && Delimiter(data[n])
    && var p := Consume(data, 0, '[');
    && p.Some? && RulesCome(data, p.value, level, n)
  }

  // ----- A place is ahead -----

  lemma ItemIncreases(data: string, p: nat)
    ensures p <= SkipBlanks(data, p) <= AfterItem(data, p)
  {}

  lemma {:induction false} BlanksTwice(data: string, p: nat)
    ensures SkipBlanks(data, SkipBlanks(data, p)) == SkipBlanks(data, p)
  {
    var q := SkipBlanks(data, p);
    if q < |data| {
      NoBlanks(data, q);
    }
  }

  lemma {:induction false} ConditionAhead(data: string, pos: nat, c: RuleCondition, n: nat)
    requires ConditionComes(data, pos, c, n)
    ensures pos < n
    decreases Measure(data, pos)
  {
    hide NextMember, ConditionMember, AfterItem, SkipBlanks;
    var r := ConditionMember(data, NextMember(data, pos).pos, NextMember(data, pos).key, c);
    ItemIncreases(data, r.pos);
    if SkipBlanks(data, r.pos) != n {
      ConditionAhead(data, AfterItem(data, r.pos), r.value, n);
    }
  }

  lemma ConditionOpensAhead(data: string, pos: nat, n: nat)
    requires ConditionOpens(data, pos, n)
    ensures SkipBlanks(data, pos) <= n && (SkipBlanks(data, pos) == n ==> n < |data| && data[n] == '{')
  {
    hide SkipBlanks, ConditionComes;
    if !(n < |data| && data[n] == '{') {
      ConditionAhead(data, Consume(data, pos, '{').value, NEW_CONDITION, n);
    }
  }

  lemma {:induction false} ConditionsAhead(data: string, pos: nat, n: nat)
    requires ConditionsCome(data, pos, n)
    ensures pos <= SkipBlanks(data, pos) <= n && (SkipBlanks(data, pos) == n ==> n < |data| && data[n] == '{')
    decreases Measure(data, pos)
  {
    hide ReadCondition, AfterItem, SkipBlanks, ConditionOpens;
    ItemIncreases(data, pos);
    var p := SkipBlanks(data, pos);
    if ConditionOpens(data, p, n) {
      BlanksTwice(data, pos);
      ConditionOpensAhead(data, p, n);
    } else {
      ItemIncreases(data, ReadCondition(data, p).pos);
      ConditionsAhead(data, AfterItem(data, ReadCondition(data, p).pos), n);
    }
  }

  lemma {:induction false} CommandAhead(data: string, pos: nat, c: RuleCommand, n: nat)
    requires CommandComes(data, pos, c, n)
    ensures pos < n
    decreases Measure(data, pos)
  {
    hide NextMember, CommandMember, AfterItem, SkipBlanks;
    var r := CommandMember(data, NextMember(data, pos).pos, NextMember(data, pos).key, c);
    ItemIncreases(data, r.pos);
    if SkipBlanks(data, r.pos) != n {
      CommandAhead(data, AfterItem(data, r.pos), r.value, n);
    }
  }

  lemma CommandOpensAhead(data: string, pos: nat, n: nat)
    requires CommandOpens(data, pos, n)
    ensures SkipBlanks(data, pos) <= n && (SkipBlanks(data, pos) == n ==> n < |data| && data[n] == '{')
  {
    hide SkipBlanks, CommandComes;
    if !(n < |data| && data[n] == '{') {
      CommandAhead(data, Consume(data, pos, '{').value, NEW_COMMAND, n);
    }
  }

  lemma {:induction false} CommandsAhead(data: string, pos: nat, n: nat)
    requires CommandsCome(data, pos, n)
    ensures pos <= SkipBlanks(data, pos) <= n && (SkipBlanks(data, pos) == n ==> n < |data| && data[n] == '{')
    decreases Measure(data, pos)
  {
    hide ReadCommand, AfterItem, SkipBlanks, CommandOpens;
    ItemIncreases(data, pos);
    var p := SkipBlanks(data, pos);
    if CommandOpens(data, p, n) {
      BlanksTwice(data, pos);
      CommandOpensAhead(data, p, n);
    } else {
      ItemIncreases(data, ReadCommand(data, p).pos);
      CommandsAhead(data, AfterItem(data, ReadCommand(data, p).pos), n);
    }
  }

  lemma MemberAhead(data: string, pos: nat, key: string, level: Level, n: nat)
    requires MemberComes(data, pos, key, level, n)
    ensures pos < n
  {
    hide SkipBlanks, ConditionsCome, CommandsCome, RuleKeyOf;
    var p := Consume(data, pos, '[').value;
    if level == InCondition {
      ConditionsAhead(data, p, n);
    } else {
      CommandsAhead(data, p, n);
    }
  }

  /** The next member begins before the place, and ends there at the latest unless the place is inside. */
  lemma {:induction false} RuleAhead(data: string, pos: nat, rule: Rule, level: Level, n: nat)
    requires RuleComes(data, pos, rule, level, n)
    ensures var p, key := NextMember(data, pos).pos, NextMember(data, pos).key;
      && pos < p <= n
      && (!MemberComes(data, p, key, level, n) ==> RuleMember(data, p, key, rule).pos <= n)
    decreases Measure(data, pos)
  {
    hide NextMember, RuleMember, AfterItem, SkipBlanks, MemberComes;
    var p, key := NextMember(data, pos).pos, NextMember(data, pos).key;
    var r := RuleMember(data, p, key, rule);
    if MemberComes(data, p, key, level, n) {
      MemberAhead(data, p, key, level, n);
    } else {
      ItemIncreases(data, r.pos);
      if !(level == InRule && SkipBlanks(data, r.pos) == n) {
        RuleAhead(data, AfterItem(data, r.pos), r.value, level, n);
      }
    }
  }

  lemma RuleOpensAhead(data: string, pos: nat, level: Level, n: nat)
    requires RuleOpens(data, pos, level, n)
    ensures SkipBlanks(data, pos) <= n && (SkipBlanks(data, pos) == n ==> n < |data| && data[n] == '{')
  {
    hide SkipBlanks, RuleComes;
    if !(level == InRule && n < |data| && data[n] == '{') {
      RuleAhead(data, Consume(data, pos, '{').value, NEW_RULE, level, n);
    }
  }

  lemma {:induction false} RulesAhead(data: string, pos: nat, level: Level, n: nat)
    requires RulesCome(data, pos, level, n)
    ensures pos <= SkipBlanks(data, pos) <= n && (SkipBlanks(data, pos) == n ==> n < |data| && data[n] == '{')
    decreases Measure(data, pos)
  {
    hide ReadRule, AfterItem, SkipBlanks, RuleOpens;
    ItemIncreases(data, pos);
    var p := SkipBlanks(data, pos);
    if RuleOpens(data, p, level, n) {
      BlanksTwice(data, pos);
      RuleOpensAhead(data, p, level, n);
    } else {
      ItemIncreases(data, ReadRule(data, p).pos);
      RulesAhead(data, AfterItem(data, ReadRule(data, p).pos), level, n);
    }
  }

  // ----- Two texts, one with a member more -----

  /** `b` is `a` with an unknown member at `n`: the text before is the same, so is the delimiter - but a
      comma has been put before a closing brace -, the member loop passes the member, and the rest is the
      same again. */
  datatype Edit = Edit(a: string, b: string, n: nat, shift: nat, level: Level, key: string, at: nat) {
    /** Where the member loop goes on in `a`; in `b` it goes on behind the delimiter. */
    function Next(): nat {
      if n < |a| && a[n] == '}' then n else n + 1
    }

    function Head(): Frame {
      Frame(a, b, 0, n, 0)
    }

    function Tail(): Frame {
      Frame(a, b, Next(), |a|, shift)
    }

    ghost predicate Valid() {
      && n < |a| && n < |b| && Delimiter(a[n]) && b[n] == (if a[n] == '}' then ',' else a[n])
      && Head().Valid() && Tail().Valid()
      && Unknown(level, key)
      && NextMember(b, n + 1) == Member(key, at) && AfterItem(b, Skip(b, at)) == Next() + shift
    }
  }

  /** What both texts give, from the same position before the member on. */
  ghost predicate Agree<T>(e: Edit, p: Parsed<T>, q: Parsed<T>) {
    q == Shifted(p, e.shift) && (p.Ok? ==> e.Next() <= p.pos)
  }

  /** Behind an item before the member: both texts go on the same way, up to the delimiter and there. */
  lemma HeadPassed(e: Edit, q: nat)
    requires e.Valid() && q <= e.n && SkipBlanks(e.a, q) <= e.n
    ensures SkipBlanks(e.b, q) == SkipBlanks(e.a, q)
    ensures SkipBlanks(e.a, q) < e.n ==> AfterItem(e.b, q) == AfterItem(e.a, q)
    ensures SkipBlanks(e.a, q) == e.n ==>
      if e.a[e.n] == '{' then AfterItem(e.a, q) == AfterItem(e.b, q) == e.n
      else AfterItem(e.a, q) == e.Next() && AfterItem(e.b, q) == e.n + 1
  {
    hide SkipBlanks, NextMember, Skip;
    BlanksSame(e.Head(), q);
    if SkipBlanks(e.a, q) < e.n {
      AfterItemSame(e.Head(), q);
    }
  }

  lemma HeadIsFrame(e: Edit)
    requires e.Valid()
    ensures e.n < |e.a| && e.Head().Valid() && e.Tail().Valid()
  {}

  lemma HeadChar(e: Edit, p: nat)
    requires e.Valid() && p <= e.n
    ensures p < |e.a| && p < |e.b| && (e.a[p] == ']' <==> e.b[p] == ']')
  {
    hide NextMember, AfterItem, Skip, Unknown;
  }

  /** What comes behind the record of the member is the same text. */
  lemma TailPassed(e: Edit, q: nat)
    requires e.Valid() && e.Next() <= q
    ensures AfterItem(e.b, q + e.shift) == AfterItem(e.a, q) + e.shift && e.Next() <= AfterItem(e.a, q)
    ensures e.Tail().Valid() && e.Tail().Has(AfterItem(e.a, q)) && e.Tail().Whole()
  {
    hide SkipBlanks, NextMember, Skip;
    AfterItemSame(e.Tail(), q);
    ItemIncreases(e.a, q);
  }

  /** A member loop passes a member it does not know. */
  lemma LoopsPass(data: string, p: nat, key: string, at: nat, rule: Rule, condition: RuleCondition,
          command: RuleCommand)
    requires NextMember(data, p) == Member(key, at)
    ensures var q := AfterItem(data, Skip(data, at));
      && (Unknown(InRule, key) ==> RuleMembers(data, p, rule) == RuleMembers(data, q, rule))
      && (Unknown(InCondition, key) ==> ConditionMembers(data, p, condition) == ConditionMembers(data, q, condition))
      && (Unknown(InCommand, key) ==> CommandMembers(data, p, command) == CommandMembers(data, q, command))
  {
    hide NextMember, AfterItem, Skip, RuleKeyOf, ConditionKeyOf, CommandKeyOf;
  }

  /** At the member: `b` passes it, and both texts go on the same way. */
  lemma GoesOn(e: Edit, rule: Rule, condition: RuleCondition, command: RuleCommand)
    requires e.Valid()
    ensures e.level == InRule ==> Agree(e, RuleMembers(e.a, e.Next(), rule), RuleMembers(e.b, e.n + 1, rule))
    ensures e.level == InCondition ==>
      Agree(e, ConditionMembers(e.a, e.Next(), condition), ConditionMembers(e.b, e.n + 1, condition))
    ensures e.level == InCommand ==>
      Agree(e, CommandMembers(e.a, e.Next(), command), CommandMembers(e.b, e.n + 1, command))
  {
    hide NextMember, AfterItem, Skip, Unknown, RuleMembers, ConditionMembers, CommandMembers;
    LoopsPass(e.b, e.n + 1, e.key, e.at, rule, condition, command);
    RuleMembersSame(e.Tail(), e.Next(), rule);
    ConditionMembersSame(e.Tail(), e.Next(), condition);
    CommandMembersSame(e.Tail(), e.Next(), command);
  }

  // ----- Conditions -----

  lemma {:induction false} ConditionComesSame(e: Edit, pos: nat, c: RuleCondition)
    requires e.Valid() && e.level == InCondition && e.a[e.n] != '{' && ConditionComes(e.a, pos, c, e.n)
    ensures Agree(e, ConditionMembers(e.a, pos, c), ConditionMembers(e.b, pos, c))
    decreases Measure(e.a, pos)
  {
    hide NextMember, AfterItem, SkipBlanks, ConditionMember, Edit.Valid;
    HeadIsFrame(e);
    var p := NextMember(e.a, pos).pos;
    var key := NextMember(e.a, pos).key;
    var r := ConditionMember(e.a, p, key, c);
    ItemIncreases(e.a, r.pos);
    if SkipBlanks(e.a, r.pos) != e.n {
      ConditionAhead(e.a, AfterItem(e.a, r.pos), r.value, e.n);
    }
    MemberSame(e.Head(), pos);
    ConditionMemberSame(e.Head(), p, key, c);
    HeadPassed(e, r.pos);
    if SkipBlanks(e.a, r.pos) == e.n {
      GoesOn(e, NEW_RULE, r.value, NEW_COMMAND);
    } else {
      ConditionComesSame(e, AfterItem(e.a, r.pos), r.value);
    }
  }

  lemma ConditionOpensSame(e: Edit, pos: nat)
    requires e.Valid() && e.level == InCondition && pos <= e.n && ConditionOpens(e.a, pos, e.n)
    ensures Agree(e, ReadCondition(e.a, pos), ReadCondition(e.b, pos))
  {
    hide NextMember, AfterItem, SkipBlanks, ConditionMembers, ConditionComes, Skip, ConditionKeyOf;
    HeadIsFrame(e);
    ConditionOpensAhead(e.a, pos, e.n);
    HeadPassed(e, pos);
    if e.a[e.n] == '{' {
      GoesOn(e, NEW_RULE, NEW_CONDITION, NEW_COMMAND);
    } else {
      ConditionAhead(e.a, Consume(e.a, pos, '{').value, NEW_CONDITION, e.n);
      ConsumeSame(e.Head(), pos, '{');
      ConditionComesSame(e, Consume(e.a, pos, '{').value, NEW_CONDITION);
    }
  }

  lemma {:induction false} ConditionsComeSame(e: Edit, pos: nat, items: seq<RuleCondition>)
    requires e.Valid() && e.level == InCondition && ConditionsCome(e.a, pos, e.n)
    ensures Agree(e, ConditionItems(e.a, pos, items), ConditionItems(e.b, pos, items))
    decreases Measure(e.a, pos)
  {
    hide NextMember, AfterItem, SkipBlanks, ReadCondition, ConditionOpens, Edit.Valid;
    HeadIsFrame(e);
    ConditionsAhead(e.a, pos, e.n);
    var p := SkipBlanks(e.a, pos);
    HeadPassed(e, pos);
    HeadChar(e, p);
    var r := ReadCondition(e.a, p);
    if ConditionOpens(e.a, p, e.n) {
      ConditionOpensSame(e, p);
      if r.Ok? {
        TailPassed(e, r.pos);
        ConditionItemsSame(e.Tail(), AfterItem(e.a, r.pos), items + [r.value]);
      }
    } else {
      ItemIncreases(e.a, r.pos);
      ConditionsAhead(e.a, AfterItem(e.a, r.pos), e.n);
      ReadConditionSame(e.Head(), p);
      HeadPassed(e, r.pos);
      ConditionsComeSame(e, AfterItem(e.a, r.pos), items + [r.value]);
    }
  }

  // ----- Commands -----

  lemma {:induction false} CommandComesSame(e: Edit, pos: nat, c: RuleCommand)
    requires e.Valid() && e.level == InCommand && e.a[e.n] != '{' && CommandComes(e.a, pos, c, e.n)
    ensures Agree(e, CommandMembers(e.a, pos, c), CommandMembers(e.b, pos, c))
    decreases Measure(e.a, pos)
  {
    hide NextMember, AfterItem, SkipBlanks, CommandMember, Edit.Valid;
    HeadIsFrame(e);
    var p := NextMember(e.a, pos).pos;
    var key := NextMember(e.a, pos).key;
    var r := CommandMember(e.a, p, key, c);
    ItemIncreases(e.a, r.pos);
    if SkipBlanks(e.a, r.pos) != e.n {
      CommandAhead(e.a, AfterItem(e.a, r.pos), r.value, e.n);
    }
    MemberSame(e.Head(), pos);
    CommandMemberSame(e.Head(), p, key, c);
    HeadPassed(e, r.pos);
    if SkipBlanks(e.a, r.pos) == e.n {
      GoesOn(e, NEW_RULE, NEW_CONDITION, r.value);
    } else {
      CommandComesSame(e, AfterItem(e.a, r.pos), r.value);
    }
  }

  lemma CommandOpensSame(e: Edit, pos: nat)
    requires e.Valid() && e.level == InCommand && pos <= e.n && CommandOpens(e.a, pos, e.n)
    ensures Agree(e, ReadCommand(e.a, pos), ReadCommand(e.b, pos))
  {
    hide NextMember, AfterItem, SkipBlanks, CommandMembers, CommandComes, Skip, CommandKeyOf;
    HeadIsFrame(e);
    CommandOpensAhead(e.a, pos, e.n);
    HeadPassed(e, pos);
    if e.a[e.n] == '{' {
      GoesOn(e, NEW_RULE, NEW_CONDITION, NEW_COMMAND);
    } else {
      CommandAhead(e.a, Consume(e.a, pos, '{').value, NEW_COMMAND, e.n);
      ConsumeSame(e.Head(), pos, '{');
      CommandComesSame(e, Consume(e.a, pos, '{').value, NEW_COMMAND);
    }
  }

  lemma {:induction false} CommandsComeSame(e: Edit, pos: nat, items: seq<RuleCommand>)
    requires e.Valid() && e.level == InCommand && CommandsCome(e.a, pos, e.n)
    ensures Agree(e, CommandItems(e.a, pos, items), CommandItems(e.b, pos, items))
    decreases Measure(e.a, pos)
  {
    hide NextMember, AfterItem, SkipBlanks, ReadCommand, CommandOpens, Edit.Valid;
    HeadIsFrame(e);
    CommandsAhead(e.a, pos, e.n);
    var p := SkipBlanks(e.a, pos);
    HeadPassed(e, pos);
    HeadChar(e, p);
    var r := ReadCommand(e.a, p);
    if CommandOpens(e.a, p, e.n) {
      CommandOpensSame(e, p);
      if r.Ok? {
        TailPassed(e, r.pos);
        CommandItemsSame(e.Tail(), AfterItem(e.a, r.pos), items + [r.value]);
      }
    } else {
      ItemIncreases(e.a, r.pos);
      CommandsAhead(e.a, AfterItem(e.a, r.pos), e.n);
      ReadCommandSame(e.Head(), p);
      HeadPassed(e, r.pos);
      CommandsComeSame(e, AfterItem(e.a, r.pos), items + [r.value]);
    }
  }

  // ----- Rules -----

  lemma MemberComesSame(e: Edit, pos: nat, key: string, rule: Rule)
    requires e.Valid() && pos <= |e.b| && MemberComes(e.a, pos, key, e.level, e.n)
    ensures Agree(e, RuleMember(e.a, pos, key, rule), RuleMember(e.b, pos, key, rule))
  {
    hide SkipBlanks, ConditionsCome, CommandsCome, ConditionItems, CommandItems, RuleKeyOf, Edit.Valid;
    HeadIsFrame(e);
    var p := Consume(e.a, pos, '[').value;
    if e.level == InCondition {
      ConditionsAhead(e.a, p, e.n);
    } else {
      CommandsAhead(e.a, p, e.n);
    }
    ConsumeSame(e.Head(), pos, '[');
    if e.level == InCondition {
      ConditionsComeSame(e, p, []);
    } else {
      CommandsComeSame(e, p, []);
    }
  }

  lemma {:induction false} RuleComesSame(e: Edit, pos: nat, rule: Rule)
    requires e.Valid() && RuleComes(e.a, pos, rule, e.level, e.n)
    requires e.level == InRule ==> e.a[e.n] != '{'
    ensures Agree(e, RuleMembers(e.a, pos, rule), RuleMembers(e.b, pos, rule))
    decreases Measure(e.a, pos)
  {
    hide NextMember, AfterItem, SkipBlanks, RuleMember, MemberComes, Edit.Valid;
    HeadIsFrame(e);
    var p := NextMember(e.a, pos).pos;
    var key := NextMember(e.a, pos).key;
    RuleAhead(e.a, pos, rule, e.level, e.n);
    MemberSame(e.Head(), pos);
    var r := RuleMember(e.a, p, key, rule);
    if MemberComes(e.a, p, key, e.level, e.n) {
      MemberComesSame(e, p, key, rule);
      if r.Ok? {
        TailPassed(e, r.pos);
        RuleMembersSame(e.Tail(), AfterItem(e.a, r.pos), r.value);
      }
    } else {
      if !(e.level == InRule && SkipBlanks(e.a, r.pos) == e.n) {
        RuleAhead(e.a, AfterItem(e.a, r.pos), r.value, e.level, e.n);
        ItemIncreases(e.a, r.pos);
      }
      RuleMemberSame(e.Head(), p, key, rule);
      HeadPassed(e, r.pos);
      if e.level == InRule && SkipBlanks(e.a, r.pos) == e.n {
        GoesOn(e, r.value, NEW_CONDITION, NEW_COMMAND);
      } else {
        RuleComesSame(e, AfterItem(e.a, r.pos), r.value);
      }
    }
  }

  lemma RuleOpensSame(e: Edit, pos: nat)
    requires e.Valid() && pos <= e.n && RuleOpens(e.a, pos, e.level, e.n)
    ensures Agree(e, ReadRule(e.a, pos), ReadRule(e.b, pos))
  {
    hide NextMember, AfterItem, SkipBlanks, RuleMembers, RuleComes, Skip, RuleKeyOf;
    HeadIsFrame(e);
    RuleOpensAhead(e.a, pos, e.level, e.n);
    HeadPassed(e, pos);
    if e.level == InRule && e.a[e.n] == '{' {
      GoesOn(e, NEW_RULE, NEW_CONDITION, NEW_COMMAND);
    } else {
      RuleAhead(e.a, Consume(e.a, pos, '{').value, NEW_RULE, e.level, e.n);
      ConsumeSame(e.Head(), pos, '{');
      RuleComesSame(e, Consume(e.a, pos, '{').value, NEW_RULE);
    }
  }

  lemma {:induction false} RulesComeSame(e: Edit, pos: nat, items: seq<Rule>)
    requires e.Valid() && RulesCome(e.a, pos, e.level, e.n)
    ensures Agree(e, RuleItems(e.a, pos, items), RuleItems(e.b, pos, items))
    decreases Measure(e.a, pos)
  {
    hide NextMember, AfterItem, SkipBlanks, ReadRule, RuleOpens, WithId, Edit.Valid;
    HeadIsFrame(e);
    RulesAhead(e.a, pos, e.level, e.n);
    var p := SkipBlanks(e.a, pos);
    HeadPassed(e, pos);
    HeadChar(e, p);
    var r := ReadRule(e.a, p);
    if RuleOpens(e.a, p, e.level, e.n) {
      RuleOpensSame(e, p);
      if r.Ok? {
        TailPassed(e, r.pos);
        RuleItemsSame(e.Tail(), AfterItem(e.a, r.pos), items + [WithId(items, r.value)]);
      }
    } else {
      ItemIncreases(e.a, r.pos);
      RulesAhead(e.a, AfterItem(e.a, r.pos), e.level, e.n);
      ReadRuleSame(e.Head(), p);
      HeadPassed(e, r.pos);
      RulesComeSame(e, AfterItem(e.a, r.pos), items + [WithId(items, r.value)]);
    }
  }

  lemma EditIsIgnored(e: Edit)
    requires e.Valid() && ComesTo(e.a, e.level, e.n)
    ensures ReadRules(e.b) == Shifted(ReadRules(e.a), e.shift)
  {
    hide SkipBlanks, RuleItems, RulesCome, Edit.Valid;
    HeadIsFrame(e);
    RulesAhead(e.a, Consume(e.a, 0, '[').value, e.level, e.n);
    ConsumeSame(e.Head(), 0, '[');
    RulesComeSame(e, Consume(e.a, 0, '[').value, []);
  }

  // ----- The member put in -----

  lemma MemberLength(m: Members, follow: string)
    ensures |MemberText(m, follow)| == |MemberText(m, "")| + |follow|
  {}

  lemma AtEnd(pre: string, s: string, q: nat, rest: string)
    requires At(pre + s, q, rest) && q + |rest| == |pre + s|
    ensures (pre + s)[q..] == rest
  {}

  lemma SuffixFrame(a: string, b: string, i: nat, j: nat)
    requires i <= |a| && i <= j <= |b| && a[i..] == b[j..]
    ensures Frame(a, b, i, |a|, j - i).Valid()
  {
    forall k | i <= k < |a| ensures k + (j - i) < |b| && a[k] == b[k + (j - i)] {
      assert a[i..][k - i] == b[j..][k - i];
    }
  }

  lemma PrefixFrame(a: string, b: string, n: nat)
    requires n < |a| && n < |b| && a[..n] == b[..n] && Delimiter(a[n]) && Delimiter(b[n])
    ensures Frame(a, b, 0, n, 0).Valid()
  {
    forall k | 0 <= k < n ensures a[k] == b[k] {
      assert a[..n][k] == b[..n][k];
    }
  }

  /** Where the loop that passes the member behind `pre` goes on. */
  lemma PassedBehind(pre: string, m: Members, follow: string, rest: string) returns (at: nat, q: nat)
    requires ValidMembers(m) && (follow == "," + rest || (follow == rest && rest != "" && rest[0] == '}'))
    ensures var b := pre + MemberText(m, follow);
      && |pre| <= q == |b| - |rest| && b[q..] == rest
      && NextMember(b, |pre|) == Member(Decoded(m.key), at) && AfterItem(b, Skip(b, at)) == q
  {
    hide MemberText, Decoded, ValidMembers, NextMember, AfterItem, Skip;
    var b := pre + MemberText(m, follow);
    MemberLength(m, follow);
    assert At(b, |pre|, MemberText(m, follow));
    at := MemberPassed(b, |pre|, m, rest, follow);
    q := |pre| + |MemberText(m, "")| + |follow| - |rest|;
    AtEnd(pre, MemberText(m, follow), q, rest);
  }

  /** The member stands behind `pre`, a comma or the rest of the text behind it. */
  lemma EditOf(a: string, n: nat, pre: string, m: Members, follow: string, rest: string, level: Level) returns (e: Edit)
    requires n < |a| && Delimiter(a[n]) && |pre| == n + 1 && a[..n] == pre[..n]
    requires pre[n] == (if a[n] == '}' then ',' else a[n]) && a[(if a[n] == '}' then n else n + 1)..] == rest
    requires follow == "," + rest || (follow == rest && rest != "" && rest[0] == '}')
    requires ValidMembers(m) && Unknown(level, Decoded(m.key))
    ensures e.Valid() && e.a == a && e.b == pre + MemberText(m, follow) && e.n == n && e.level == level
    ensures e.shift == |e.b| - |a|
  {
    hide MemberText, Decoded, ValidMembers, NextMember, AfterItem, Skip, Unknown, Frame.Valid;
    var b := pre + MemberText(m, follow);
    var at, q := PassedBehind(pre, m, follow, rest);
    e := Edit(a, b, n, |b| - |a|, level, Decoded(m.key), at);
    assert b[..n] == pre[..n] && b[n] == pre[n];
    PrefixFrame(a, b, n);
    SuffixFrame(a, b, e.Next(), q);
  }

  /** The text with a member put in at `n`: behind an opening brace or a comma, itself followed by a
      comma or not, or behind a comma of its own before a closing brace. */
  function WithMember(a: string, n: nat, m: Members, comma: bool): string
    requires n < |a|
  {
    if a[n] == '}' then a[..n] + "," + MemberText(m, a[n..])
    else a[..n + 1] + MemberText(m, (if comma then "," else "") + a[n + 1..])
  }

  /** Wherever the reader comes to stand inside a rule, a condition or a command of a file, a member with
      a name unknown there can be put in, with any JSON value without empty containers, and the file
      still reads as the same rules, is rejected or throws as before. Only a member put in front of others
      needs the comma behind it. */
  lemma UnknownMemberIgnored(a: string, n: nat, m: Members, comma: bool, level: Level)
    requires ValidMembers(m) && Unknown(level, Decoded(m.key)) && ComesTo(a, level, n)
    requires comma || a[n] == '}' || (n + 1 < |a| && a[n + 1] == '}')
    ensures var b := WithMember(a, n, m, comma);
      |a| <= |b| && ReadRules(b) == Shifted(ReadRules(a), |b| - |a|)
  {
    hide ReadRules, ComesTo, MemberText, Decoded, ValidMembers, Unknown, Edit.Valid;
    PlaceInside(a, level, n);
    var e;
    if a[n] == '}' {
      e := EditOf(a, n, a[..n] + ",", m, a[n..], a[n..], level);
    } else {
      var rest := a[n + 1..];
      assert "" + rest == rest;
      e := EditOf(a, n, a[..n + 1], m, (if comma then "," else "") + rest, rest, level);
    }
    EditIsIgnored(e);
  }

  /** There is such a place in every file with a rule in it: the brace that opens the first. */
  lemma FirstRuleOpens(a: string) returns (n: nat)
    requires ReadRules(a).Ok? && ReadRules(a).value != []
    ensures ComesTo(a, InRule, n) && a[n] == '{'
  {
    hide SkipBlanks, RuleMembers, RuleComes;
    var p := Consume(a, 0, '[').value;
    n := SkipBlanks(a, p);
    NoBlanks(a, n);
  }

  lemma PlaceInside(data: string, level: Level, n: nat)
    requires ComesTo(data, level, n)
    ensures n < |data| && Delimiter(data[n])
  {}

  lemma LoopsIgnore(a: string, b: string, m: Members, follow: string, rule: Rule, condition: RuleCondition,
          command: RuleCommand)
    requires ValidMembers(m) && (follow == "," + b || (follow == b && b != "" && b[0] == '}'))
    ensures var text := a + MemberText(m, follow);
      |a + b| <= |text| && LoopsAgree(a + b, text, |a|, |text| - |a + b|, Decoded(m.key), rule, condition, command)
  {
    hide MemberText, Decoded, ValidMembers, Frame.Valid, RuleMembers, ConditionMembers, CommandMembers;
    hide NextMember, AfterItem, Skip, Unknown;
    var text := a + MemberText(m, follow);
    var at, q := PassedBehind(a, m, follow, b);
    assert (a + b)[|a|..] == b;
    SuffixFrame(a + b, text, |a|, q);
    var f := Frame(a + b, text, |a|, |a + b|, q - |a|);
    RuleMembersSame(f, |a|, rule);
    ConditionMembersSame(f, |a|, condition);
    CommandMembersSame(f, |a|, command);
    LoopsPass(text, |a|, Decoded(m.key), at, rule, condition, command);
  }

  /** The member loops that do not know the name, from `p` on, give the same in both texts, `k` further. */
  predicate LoopsAgree(a: string, b: string, p: nat, k: nat, key: string, rule: Rule, condition: RuleCondition,
          command: RuleCommand) {
    && (Unknown(InRule, key) ==> RuleMembers(b, p, rule) == Shifted(RuleMembers(a, p, rule), k))
    && (Unknown(InCondition, key) ==>
          ConditionMembers(b, p, condition) == Shifted(ConditionMembers(a, p, condition), k))
    && (Unknown(InCommand, key) ==> CommandMembers(b, p, command) == Shifted(CommandMembers(a, p, command), k))
  }

  /** And of one member loop by itself, in any state and on any text: with the member in front of it, a
      comma or the closing brace behind, a text reads as without, position for position. */
  lemma UnknownMember(a: string, b: string, m: Members, comma: bool, rule: Rule, condition: RuleCondition,
          command: RuleCommand)
    requires ValidMembers(m) && (comma || (b != "" && b[0] == '}'))
    ensures var text := a + MemberText(m, (if comma then "," else "") + b);
      |a + b| <= |text| && LoopsAgree(a + b, text, |a|, |text| - |a + b|, Decoded(m.key), rule, condition, command)
  {
    hide MemberText, Decoded, ValidMembers, LoopsAgree;
    assert "" + b == b;
    LoopsIgnore(a, b, m, (if comma then "," else "") + b, rule, condition, command);
  }
}
