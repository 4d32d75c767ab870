/** The rule records of server/rules.hpp and the names their enumerations have in the rules file. */
module Rules {
  import opened Text
  import opened Numbers

  datatype ConditionInputType = Register | Variable | Relay | Time | UnknownInput

  datatype ConditionOperator = Equal | NotEqual | Less | LessEqual | Greater | GreaterEqual | UnknownOperator

  datatype CommandType = Send | Enable | Disable | SetVar | AddVar | SubVar | System | UnknownCommand

  datatype RuleCondition = RuleCondition(
    inputType: ConditionInputType, inputAddress: uint32, op: ConditionOperator,
    valueInputType: ConditionInputType, valueInputAddress: uint32,
    valueString: string, valueNumber: Number, valueIsString: bool)

  datatype RuleCommand = RuleCommand(kind: CommandType, data: string, address: uint32)

  datatype Rule = Rule(
    id: uint32, enabled: bool, name: string,
    conditions: seq<RuleCondition>, commands: seq<RuleCommand>)

  const NEW_CONDITION: RuleCondition :=
    RuleCondition(UnknownInput, 0, UnknownOperator, UnknownInput, 0, "", ZERO, false)
  const NEW_COMMAND: RuleCommand := RuleCommand(UnknownCommand, "", 0)
  const NEW_RULE: Rule := Rule(0, true, "", [], [])

  function InputTypeName(t: ConditionInputType): string {
    match t
    case Register => "register"
    case Variable => "variable"
    case Relay => "relay"
    case Time => "time"
    case UnknownInput => "unknown"
  }

  function OperatorName(op: ConditionOperator): string {
    match op
    case Equal => "equal"
    case NotEqual => "notEqual"
    case Less => "less"
    case LessEqual => "lessEqual"
    case Greater => "greater"
    case GreaterEqual => "greaterEqual"
    case UnknownOperator => "unknown"
  }

  function CommandTypeName(t: CommandType): string {
    match t
    case Send => "send"
    case Enable => "enable"
    case Disable => "disable"
    case SetVar => "setVar"
    case AddVar => "addVar"
    case SubVar => "subVar"
    case System => "system"
    case UnknownCommand => "unknown"
  }

  function ParseConditionInputType(value: string): ConditionInputType {
    var lowered := Lower(value);
    if lowered == "register" then Register
    else if lowered == "variable" then Variable
    else if lowered == "relay" then Relay
    else if lowered == "time" then Time
    else UnknownInput
  }

  function ParseConditionOperator(value: string): ConditionOperator {
    var lowered := Lower(value);
    if lowered == "equal" then Equal
    else if lowered == "notequal" then NotEqual
    else if lowered == "less" then Less
    else if lowered == "lessequal" then LessEqual
    else if lowered == "greater" then Greater
    else if lowered == "greaterequal" then GreaterEqual
    else UnknownOperator
  }

  function ParseCommandType(value: string): CommandType {
    var lowered := Lower(value);
    if lowered == "send" then Send
    else if lowered == "enable" then Enable
    else if lowered == "disable" then Disable
    else if lowered == "setvar" then SetVar
    else if lowered == "addvar" then AddVar
    else if lowered == "subvar" then SubVar
    else if lowered == "system" then System
    else UnknownCommand
  }

  lemma InputTypeNames(t: ConditionInputType)
    ensures ParseConditionInputType(InputTypeName(t)) == t
  {
    var s := InputTypeName(t);
    assert Lower(s) == s;
  }

  lemma OperatorNames(op: ConditionOperator)
    ensures ParseConditionOperator(OperatorName(op)) == op
  {
    match op
    case Equal => assert Lower("equal") == "equal";
    case NotEqual => assert Lower("notEqual") == "notequal";
    case Less => assert Lower("less") == "less";
    case LessEqual => assert Lower("lessEqual") == "lessequal";
    case Greater => assert Lower("greater") == "greater";
    case GreaterEqual => assert Lower("greaterEqual") == "greaterequal";
    case UnknownOperator => assert Lower("unknown") == "unknown";
  }

  lemma CommandTypeNames(t: CommandType)
    ensures ParseCommandType(CommandTypeName(t)) == t
  {
    match t
    case Send => assert Lower("send") == "send";
    case Enable => assert Lower("enable") == "enable";
    case Disable => assert Lower("disable") == "disable";
    case SetVar => assert Lower("setVar") == "setvar";
    case AddVar => assert Lower("addVar") == "addvar";
    case SubVar => assert Lower("subVar") == "subvar";
    case System => assert Lower("system") == "system";
    case UnknownCommand => assert Lower("unknown") == "unknown";
  }

  // ----- Member names, matched without regard to case -----

  datatype ConditionKey =
    | InputTypeKey | InputAddressKey | OperatorKey
    | ValueTypeKey | ValueAddressKey | ValueKey
    | OtherConditionKey

  datatype CommandKey = TypeKey | DataKey | AddressKey | OtherCommandKey

  datatype RuleKey = IdKey | EnabledKey | NameKey | ConditionsKey | CommandsKey | OtherRuleKey

  function ConditionKeyOf(key: string): ConditionKey {
    var lowered := Lower(key);
    if lowered == "inputtype" then InputTypeKey
    else if lowered == "inputaddress" then InputAddressKey
    else if lowered == "operator" then OperatorKey
    else if lowered == "valuetype" then ValueTypeKey
    else if lowered == "valueaddress" then ValueAddressKey
    else if lowered == "value" then ValueKey
    else OtherConditionKey
  }

  function CommandKeyOf(key: string): CommandKey {
    var lowered := Lower(key);
    if lowered == "type" then TypeKey
    else if lowered == "data" then DataKey
    else if lowered == "address" then AddressKey
    else OtherCommandKey
  }

  function RuleKeyOf(key: string): RuleKey {
    var lowered := Lower(key);
    if lowered == "id" then IdKey
    else if lowered == "enabled" then EnabledKey
    else if lowered == "name" then NameKey
    else if lowered == "conditions" then ConditionsKey
    else if lowered == "commands" then CommandsKey
    else OtherRuleKey
  }

  lemma ConditionKeys()
    ensures ConditionKeyOf("inputType") == InputTypeKey && ConditionKeyOf("inputAddress") == InputAddressKey
    ensures ConditionKeyOf("operator") == OperatorKey && ConditionKeyOf("valueType") == ValueTypeKey
    ensures ConditionKeyOf("valueAddress") == ValueAddressKey && ConditionKeyOf("value") == ValueKey
  {
    assert Lower("inputType") == "inputtype";
    assert Lower("inputAddress") == "inputaddress";
    assert Lower("operator") == "operator";
    assert Lower("valueType") == "valuetype";
    assert "valuetype"[0] != "inputtype"[0];
    assert Lower("valueAddress") == "valueaddress";
    assert "valueaddress"[0] != "inputaddress"[0];
    assert Lower("value") == "value";
  }

  lemma CommandKeys()
    ensures CommandKeyOf("type") == TypeKey && CommandKeyOf("data") == DataKey && CommandKeyOf("address") == AddressKey
  {
    assert Lower("type") == "type" && Lower("data") == "data" && Lower("address") == "address";
    assert "type"[0] != "data"[0];
  }

  lemma RuleKeys()
    ensures RuleKeyOf("id") == IdKey && RuleKeyOf("enabled") == EnabledKey && RuleKeyOf("name") == NameKey
    ensures RuleKeyOf("conditions") == ConditionsKey && RuleKeyOf("commands") == CommandsKey
  {
    assert Lower("id") == "id" && Lower("enabled") == "enabled" && Lower("name") == "name";
    assert Lower("conditions") == "conditions" && Lower("commands") == "commands";
  }
}
