/** The reader of the rules file, server/rules.hpp lines 190-214 and 317-590. */
module RuleReader {
  import opened Options
  import opened Text
  import opened Numbers
  import opened JsonReader
  import opened Rules

  /** The parse functions return false (Rejected) or let an exception of stoul or stod out (Thrown). */
  datatype Parsed<+T> = Ok(value: T, pos: nat) | Rejected | Thrown

  // ----- Time of day -----

  const INT_RANGE: nat := 0x8000_0000

  /** `iss >> int`: None when the extraction fails. */
  function ReadInt(s: string, pos: nat): (r: Option<(int, nat)>)
    requires pos <= |s|
    ensures r.Some? ==> r.value.1 <= |s|
  {
    var p0 := SkipBlanks(s, pos);
    var p1 := SkipSign(s, p0);
    var p2 := SkipDigits(s, p1);
    var v: int := DigitsValue(s[p1..p2]);
    var n := if p1 > p0 && s[p0] == '-' then -v else v;
    if p2 == p1 || n < -(INT_RANGE as int) || n >= INT_RANGE then None else Some((n, p2))
  }

  /** `iss >> char` */
  function ReadChar(s: string, pos: nat): (r: Option<(char, nat)>)
    requires pos <= |s|
    ensures r.Some? ==> r.value.1 <= |s|
  {
    var p := SkipBlanks(s, pos);
    if p < |s| then Some((s[p], p + 1)) else None
  }

  function TimeOfDay(hours: int, minutes: int, seconds: int): Option<nat> {
    if 0 <= hours <= 23 && 0 <= minutes <= 59 && 0 <= seconds <= 59
    then Some(hours * 3600 + minutes * 60 + seconds)
    else None
  }

  /** `parseTimeStringToSeconds`: None for -1. Seconds that cannot be read count as 0, with any separator. */
  function TimeStringToSeconds(s: string): Option<nat> {
    match ReadInt(s, 0)
    case None => None
    case Some((hours, p1)) =>
      match ReadChar(s, p1)
      case None => None
      case Some((colon1, p2)) =>
        match ReadInt(s, p2)
        case None => None
        case Some((minutes, p3)) =>
          if colon1 != ':' then None
          else
            match ReadChar(s, p3)
            case None => TimeOfDay(hours, minutes, 0)
            case Some((colon2, p4)) =>
              match ReadInt(s, p4)
              case None => TimeOfDay(hours, minutes, 0)
              case Some((seconds, _)) => if colon2 != ':' then None else TimeOfDay(hours, minutes, seconds)
  }

  // ----- Members -----

  datatype MemberScan = End(pos: nat) | Member(key: string, pos: nat) | Malformed

  /** The head of a member loop: the closing brace, or a name and its colon. */
  function NextMember(data: string, pos: nat): (r: MemberScan)
    ensures r.End? || r.Member? ==> pos < r.pos <= |data|
  {
    var p := SkipBlanks(data, pos);
    if p >= |data| then Malformed
    else if data[p] == '}' then End(p + 1)
    else
      var s := StringScan(data, p);
      if !s.ok then Malformed
      else
        match Consume(data, s.pos, ':')
        case None => Malformed
        case Some(q) => Member(s.text, q)
  }

  /** Behind a member or an item, a comma is passed over when there is one. */
  function AfterItem(data: string, pos: nat): (r: nat)
    ensures pos <= r
  {
    var p := SkipBlanks(data, pos);
    if p < |data| && data[p] == ',' then p + 1 else p
  }

  function Measure(data: string, pos: nat): nat {
    if pos <= |data| then |data| - pos else 0
  }

  /** What `std::stoul` and the cast to uint32_t give, None when stoul throws. */
  function ToUint32(text: string): Option<uint32> {
    match Stoul(text)
    case None => None
    case Some(n) => Some(n % UINT32_RANGE)
  }

  /** The number a condition gets from its literal, None when stod throws. */
  function LiteralNumber(inputType: ConditionInputType, text: string, isString: bool): Option<Number> {
    if isString && inputType == Time then
      match TimeStringToSeconds(text)
      case None => Some(ZERO)
      case Some(seconds) => Some(Normalize(false, seconds, 0))
    else
      Stod(text)
  }

  /** Storing a scanned value in a condition, None when the conversion throws. */
  function SetConditionMember(c: RuleCondition, key: ConditionKey, text: string,
          isString: bool): Option<RuleCondition> {
    match key
    case InputTypeKey => Some(c.(inputType := ParseConditionInputType(text)))
    case InputAddressKey =>
      (match ToUint32(text) case None => None case Some(n) => Some(c.(inputAddress := n)))
    case OperatorKey => Some(c.(op := ParseConditionOperator(text)))
    case ValueTypeKey => Some(c.(valueInputType := ParseConditionInputType(text)))
    case ValueAddressKey =>
      (match ToUint32(text) case None => None case Some(n) => Some(c.(valueInputAddress := n)))
    case ValueKey =>
      (match LiteralNumber(c.inputType, text, isString)
       case None => None
       case Some(n) =>
         Some(c.(valueIsString := isString, valueString := if isString then text else "", valueNumber := n)))
    case OtherConditionKey => Some(c)
  }

  function ConditionMember(data: string, pos: nat, key: string, c: RuleCondition): (r: Parsed<RuleCondition>)
    requires pos <= |data|
    ensures r.Ok? ==> pos <= r.pos
  {
    var k := ConditionKeyOf(key);
    if k == OtherConditionKey then
      Ok(c, Skip(data, pos))
    else
      var v := ScanValue(data, pos);
      if !v.ok then Rejected
      else
        match SetConditionMember(c, k, v.text, v.isString)
        case None => Thrown
        case Some(c') => Ok(c', v.pos)
  }

  function ConditionMembers(data: string, pos: nat, c: RuleCondition): (r: Parsed<RuleCondition>)
    ensures r.Ok? ==> pos < r.pos
    decreases Measure(data, pos)
  {
    match NextMember(data, pos)
    case Malformed => Rejected
    case End(p) => Ok(c, p)
    case Member(key, p) =>
      match ConditionMember(data, p, key, c)
      case Rejected => Rejected
      case Thrown => Thrown
      case Ok(c', q) => ConditionMembers(data, AfterItem(data, q), c')
  }

  function ReadCondition(data: string, pos: nat): (r: Parsed<RuleCondition>)
    ensures r.Ok? ==> pos < r.pos
  {
    match Consume(data, pos, '{')
    case None => Rejected
    case Some(p) => ConditionMembers(data, p, NEW_CONDITION)
  }

  function SetCommandMember(c: RuleCommand, key: CommandKey, text: string): Option<RuleCommand> {
    match key
    case TypeKey => Some(c.(kind := ParseCommandType(text)))
    case DataKey => Some(c.(data := text))
    case AddressKey => (match ToUint32(text) case None => None case Some(n) => Some(c.(address := n)))
    case OtherCommandKey => Some(c)
  }

  function CommandMember(data: string, pos: nat, key: string, c: RuleCommand): (r: Parsed<RuleCommand>)
    requires pos <= |data|
    ensures r.Ok? ==> pos <= r.pos
  {
    var k := CommandKeyOf(key);
    if k == OtherCommandKey then
      Ok(c, Skip(data, pos))
    else
      var v := ScanValue(data, pos);
      if !v.ok then Rejected
      else
        match SetCommandMember(c, k, v.text)
        case None => Thrown
        case Some(c') => Ok(c', v.pos)
  }

  function CommandMembers(data: string, pos: nat, c: RuleCommand): (r: Parsed<RuleCommand>)
    ensures r.Ok? ==> pos < r.pos
    decreases Measure(data, pos)
  {
    match NextMember(data, pos)
    case Malformed => Rejected
    case End(p) => Ok(c, p)
    case Member(key, p) =>
      match CommandMember(data, p, key, c)
      case Rejected => Rejected
      case Thrown => Thrown
      case Ok(c', q) => CommandMembers(data, AfterItem(data, q), c')
  }

  function ReadCommand(data: string, pos: nat): (r: Parsed<RuleCommand>)
    ensures r.Ok? ==> pos < r.pos
  {
    match Consume(data, pos, '{')
    case None => Rejected
    case Some(p) => CommandMembers(data, p, NEW_COMMAND)
  }

  // ----- Lists -----

  function ConditionItems(data: string, pos: nat, items: seq<RuleCondition>): (r: Parsed<seq<RuleCondition>>)
    ensures r.Ok? ==> pos < r.pos
    decreases Measure(data, pos)
  {
    var p := SkipBlanks(data, pos);
    if p >= |data| then Rejected
    else if data[p] == ']' then Ok(items, p + 1)
    else
      match ReadCondition(data, p)
      case Rejected => Rejected
      case Thrown => Thrown
      case Ok(c, q) => ConditionItems(data, AfterItem(data, q), items + [c])
  }

  function CommandItems(data: string, pos: nat, items: seq<RuleCommand>): (r: Parsed<seq<RuleCommand>>)
    ensures r.Ok? ==> pos < r.pos
    decreases Measure(data, pos)
  {
    var p := SkipBlanks(data, pos);
    if p >= |data| then Rejected
    else if data[p] == ']' then Ok(items, p + 1)
    else
      match ReadCommand(data, p)
      case Rejected => Rejected
      case Thrown => Thrown
      case Ok(c, q) => CommandItems(data, AfterItem(data, q), items + [c])
  }

  function RuleMember(data: string, pos: nat, key: string, rule: Rule): (r: Parsed<Rule>)
    requires pos <= |data|
    ensures r.Ok? ==> pos <= r.pos
  {
    match RuleKeyOf(key)
    case IdKey =>
      (var v := ScanValue(data, pos);
       if !v.ok then Rejected
       else
         match ToUint32(v.text)
         case None => Thrown
         case Some(n) => Ok(rule.(id := n), v.pos))
    case EnabledKey =>
      (var b := ScanBool(data, pos);
       if !b.ok then Rejected else Ok(rule.(enabled := b.value), b.pos))
    case NameKey =>
      (var s := StringScan(data, pos);
       if !s.ok then Rejected else Ok(rule.(name := s.text), s.pos))
    case ConditionsKey =>
      (match Consume(data, pos, '[')
       case None => Rejected
       case Some(p) =>
         match ConditionItems(data, p, [])
         case Rejected => Rejected
         case Thrown => Thrown
         case Ok(items, q) => Ok(rule.(conditions := items), q))
    case CommandsKey =>
      (match Consume(data, pos, '[')
       case None => Rejected
       case Some(p) =>
         match CommandItems(data, p, [])
         case Rejected => Rejected
         case Thrown => Thrown
         case Ok(items, q) => Ok(rule.(commands := items), q))
    case OtherRuleKey => Ok(rule, Skip(data, pos))
  }

  function RuleMembers(data: string, pos: nat, rule: Rule): (r: Parsed<Rule>)
    ensures r.Ok? ==> pos < r.pos
    decreases Measure(data, pos)
  {
    match NextMember(data, pos)
    case Malformed => Rejected
    case End(p) => Ok(rule, p)
    case Member(key, p) =>
      match RuleMember(data, p, key, rule)
      case Rejected => Rejected
      case Thrown => Thrown
      case Ok(rule', q) => RuleMembers(data, AfterItem(data, q), rule')
  }

  function ReadRule(data: string, pos: nat): (r: Parsed<Rule>)
    ensures r.Ok? ==> pos < r.pos
  {
    match Consume(data, pos, '{')
    case None => Rejected
    case Some(p) => RuleMembers(data, p, NEW_RULE)
  }

  /** The id given to a rule that has none: one more than the largest so far, in 32 bits. */
  function NextId(rules: seq<Rule>): uint32 {
    if rules == [] then 1
    else
      var before := NextId(rules[..|rules| - 1]);
      var candidate := (rules[|rules| - 1].id + 1) % UINT32_RANGE;
      if before < candidate then candidate else before
  }

  function WithId(rules: seq<Rule>, rule: Rule): Rule {
    if rule.id == 0 then rule.(id := NextId(rules)) else rule
  }

  function RuleItems(data: string, pos: nat, items: seq<Rule>): (r: Parsed<seq<Rule>>)
    ensures r.Ok? ==> pos < r.pos
    decreases Measure(data, pos)
  {
    var p := SkipBlanks(data, pos);
    if p >= |data| then Rejected
    else if data[p] == ']' then Ok(items, p + 1)
    else
      match ReadRule(data, p)
      case Rejected => Rejected
      case Thrown => Thrown
      case Ok(rule, q) => RuleItems(data, AfterItem(data, q), items + [WithId(items, rule)])
  }

  /** `parseRulesArray`; whatever follows the closing bracket is not looked at. */
  function ReadRules(data: string): Parsed<seq<Rule>> {
    match Consume(data, 0, '[')
    case None => Rejected
    case Some(p) => RuleItems(data, p, [])
  }
}
