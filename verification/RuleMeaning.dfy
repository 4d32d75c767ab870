/** What the names in a rules file stand for to the engine, and what commands make of a variable
    (server/rules.hpp, lines 226-256 and 798-957). Names are matched without regard to case. */
module RuleMeaning {
  import opened Options
  import opened Text
  import opened Numbers
  import opened Rules
  import opened RuleReader
  import opened RuleEngine

  // ----- Names -----

  predicate IsOperator(name: string) {
    || name == "equal" || name == "notequal"
    || name == "less" || name == "lessequal"
    || name == "greater" || name == "greaterequal"
  }

  /** How a condition compares, by the name of its operator. */
  lemma OperatorMeans(text: string, x: real, v: real)
    ensures var name, met := Lower(text), Compare(ParseConditionOperator(text), x, v);
      && (name == "equal" ==> (met <==> -0.000001 < x - v < 0.000001))
      && (name == "notequal" ==> (met <==> !(-0.000001 < x - v < 0.000001)))
      && (name == "less" ==> (met <==> x < v))
      && (name == "lessequal" ==> (met <==> x <= v))
      && (name == "greater" ==> (met <==> x > v))
      && (name == "greaterequal" ==> (met <==> x >= v))
      && (!IsOperator(name) ==> !met)
  {
    hide Lower;
  }

  /** Where a value comes from, by the name of its input type. */
  lemma InputMeans(text: string, address: uint32, variables: map<uint32, real>, inputs: Inputs)
    ensures var name, value := Lower(text), InputValue(ParseConditionInputType(text), address, variables, inputs);
      var key := address % 0x10000;
      && (name == "register" ==> (value.Some? <==> key in inputs.lastValues))
      && (name == "relay" ==>
            value == if key in inputs.lastValues then Some(inputs.lastValues[key] as real) else None)
      && (name == "variable" ==> value == Some(if address in variables then variables[address] else 0.0))
      && (name == "time" ==> value == Some(inputs.secondsOfDay as real))
      && (name != "register" && name != "relay" && name != "variable" && name != "time" ==> value == None)
  {
    hide Lower, ScaledRegisterValue;
  }

  // ----- Members by their names -----

  /** What the reader stores for a member of a condition. */
  lemma ConditionMemberMeans(c: RuleCondition, key: string, text: string, isString: bool)
    ensures var name, stored := Lower(key), SetConditionMember(c, ConditionKeyOf(key), text, isString);
      var number := ToUint32(text);
      && (name == "inputtype" ==> stored == Some(c.(inputType := ParseConditionInputType(text))))
      && (name == "operator" ==> stored == Some(c.(op := ParseConditionOperator(text))))
      && (name == "valuetype" ==> stored == Some(c.(valueInputType := ParseConditionInputType(text))))
      && (name == "inputaddress" ==>
            stored == if number.Some? then Some(c.(inputAddress := number.value)) else None)
      && (name == "valueaddress" ==>
            stored == if number.Some? then Some(c.(valueInputAddress := number.value)) else None)
      && (name == "value" ==>
            var literal := LiteralNumber(c.inputType, text, isString);
            if literal.Some? then
              stored == Some(c.(valueIsString := isString, valueString := if isString then text else "",
                                valueNumber := literal.value))
            else stored == None)
  {
    hide Lower, ToUint32, ParseConditionInputType, ParseConditionOperator, LiteralNumber;
  }

  lemma CommandMemberMeans(c: RuleCommand, key: string, text: string)
    ensures var name, stored, number := Lower(key), SetCommandMember(c, CommandKeyOf(key), text), ToUint32(text);
      && (name == "type" ==> stored == Some(c.(kind := ParseCommandType(text))))
      && (name == "data" ==> stored == Some(c.(data := text)))
      && (name == "address" ==> stored == if number.Some? then Some(c.(address := number.value)) else None)
  {
    hide Lower, ToUint32, ParseCommandType;
  }

  // ----- Numbers -----

  /** Ten to the power e. */
  function TenTo(e: int): real {
    if e >= 0 then Pow10(e) as real else 1.0 / Pow10(-e) as real
  }

  lemma TenToNext(e: int)
    ensures TenTo(e + 1) == 10.0 * TenTo(e)
  {
    hide Pow10;
    if e >= 0 {
      NextPower(e);
    } else {
      NextPower(-e - 1);
      NextPower(0);
      TenthOfReal(Pow10(-e - 1));
    }
  }

  lemma TenthOfReal(p: nat)
    requires p > 0
    ensures 1.0 / p as real == 10.0 * (1.0 / (10 * p) as real)
  {}

  lemma {:induction false} TenToPlus(a: int, b: int)
    ensures TenTo(a + b) == TenTo(a) * TenTo(b)
    decreases if b >= 0 then b else -b
  {
    hide TenTo;
    if b == 0 {
      TenToZero();
    } else if b > 0 {
      TenToPlus(a, b - 1);
      TenToNext(a + (b - 1));
      TenToNext(b - 1);
      assert a + (b - 1) + 1 == a + b;
      TenTimesReal(TenTo(a), TenTo(b - 1));
    } else {
      TenToPlus(a, b + 1);
      TenToNext(a + b);
      TenToNext(b);
      assert a + (b + 1) == a + b + 1;
      TenTimesReal(TenTo(a), TenTo(b));
      assert TenTo(a) * TenTo(b + 1) == TenTo(a) * (10.0 * TenTo(b));
    }
  }

  lemma TenToZero()
    ensures TenTo(0) == 1.0
  {
    NextPower(0);
  }

  lemma TenTimesReal(x: real, y: real)
    ensures x * (10.0 * y) == 10.0 * (x * y)
  {}

  function Signed(neg: bool, x: real): real {
    if neg then -x else x
  }

  lemma RealIs(d: Decimal)
    requires d.Normal()
    ensures ToReal(d) == Signed(d.neg, d.mantissa as real * TenTo(d.exponent))
  {
    hide Pow10;
    if d.exponent >= 0 {
      ProductIsReal(d.mantissa, Pow10(d.exponent));
    } else {
      QuotientIsProduct(d.mantissa as real, Pow10(-d.exponent) as real);
    }
  }

  lemma ProductIsReal(a: nat, b: nat)
    ensures (a * b) as real == a as real * b as real
  {}

  lemma QuotientIsProduct(x: real, y: real)
    requires y > 0.0
    ensures x / y == x * (1.0 / y)
  {
    assert (x / y) * y == x && (x * (1.0 / y)) * y == x;
  }

  lemma {:induction false} NormalizeMeans(neg: bool, m: nat, e: int)
    ensures ToReal(Normalize(neg, m, e)) == Signed(neg, m as real * TenTo(e))
    decreases m
  {
    hide TenTo, ToReal;
    RealIs(Normalize(neg, m, e));
    if m > 0 && m % 10 == 0 {
      NormalizeMeans(neg, m / 10, e + 1);
      TenToNext(e);
      TenTimesReal((m / 10) as real, TenTo(e));
      assert m as real == 10.0 * (m / 10) as real;
      Scaled((m / 10) as real, TenTo(e));
    }
  }

  lemma Scaled(x: real, y: real)
    ensures (10.0 * x) * y == 10.0 * (x * y)
  {}

  /** The digits before and behind the point, times ten to the exponent, with the sign. */
  function Written(l: Lexeme): real
    requires l.Valid()
  {
    var whole, fraction, places := DigitsValue(l.whole) as real, DigitsValue(l.fraction) as real, |l.fraction|;
    var exponent: int := DigitsValue(l.exp);
    Signed(l.neg, (whole + fraction * TenTo(-(places as int))) *
                  TenTo(if l.NegativeExponent() then -exponent else exponent))
  }

  lemma ReadAsWritten(l: Lexeme)
    requires l.Valid()
    ensures Stod(l.Text()) == Some(l.Value()) && ToReal(l.Value()) == Written(l)
  {
    hide Lexeme.Text, Lexeme.NegativeExponent, Stod, ToReal, TenTo, DigitsValue, Normalize, Pow10;
    var k, e: int := |l.fraction|, DigitsValue(l.exp);
    var exponent := if l.NegativeExponent() then -e else e;
    StodLexeme(l);
    DigitsConcat(l.whole, l.fraction);
    NormalizeMeans(l.neg, DigitsValue(l.whole + l.fraction), exponent - k);
    TenToPlus(exponent, -(k as int));
    PointMoves(DigitsValue(l.whole), DigitsValue(l.fraction), k, TenTo(exponent));
  }

  /** What a number in the file stands for, to commands and to conditions. */
  lemma NumeralMeans(l: Lexeme, inputType: ConditionInputType)
    requires l.Valid()
    ensures var literal := LiteralNumber(inputType, l.Text(), false);
      CommandNumber(l.Text()) == Written(l) && literal.Some? && ToReal(literal.value) == Written(l)
  {
    hide Lexeme.Text, Stod, ToReal, Written;
    ReadAsWritten(l);
  }

  /** Digits in front of the point, behind it, and without it. */
  lemma PointMoves(w: nat, f: nat, k: nat, scale: real)
    ensures var place := TenTo(-(k as int));
      (w * Pow10(k) + f) as real * (scale * place) == (w as real + f as real * place) * scale
  {
    hide Pow10;
    ProductIsReal(w, Pow10(k));
    TenToInverse(k);
    Moves(w as real, f as real, Pow10(k) as real, TenTo(-(k as int)), scale);
  }

  lemma TenToInverse(k: nat)
    ensures Pow10(k) as real * TenTo(-(k as int)) == 1.0
  {
    NextPower(0);
  }

  lemma Moves(w: real, f: real, p: real, q: real, scale: real)
    requires p * q == 1.0
    ensures (w * p + f) * (scale * q) == (w + f * q) * scale
  {
    assert (w * p + f) * q == w * (p * q) + f * q;
    assert (w * p + f) * (scale * q) == ((w * p + f) * q) * scale;
  }

  /** Data without a digit is no number: it counts as 0, and as the id of no rule. */
  lemma NoNumeralMeans(data: string)
    requires forall c :: c in data ==> !IsDigit(c)
    ensures CommandNumber(data) == 0.0 && TargetId(data) == 0
  {
    hide DigitsValue, Normalize, ExponentValue;
    var p0 := SkipBlanks(data, 0);
    var p1 := SkipSign(data, p0);
    assert SkipDigits(data, p1) == p1;
    assert FractionDigits(data, p1) == "";
    assert data[p1..p1] == "";
  }

  // ----- Registers and their units -----

  const TENTHS_OF_VOLTS: set<nat> := {20102, 20118, 20119, 10103, 10104, 10105, 10107, 20127, 20128, 15205, 15206}
  const TENTHS_OF_AMPERES: set<nat> := {20113, 20125, 20132, 15207, 25212}

  /** The unit that the register's metadata name: a number, if any, and a symbol. */
  function UnitOf(address: nat): (string, string) {
    if address in TENTHS_OF_VOLTS then ("0.1", "V")
    else if address in TENTHS_OF_AMPERES then ("0.1", "A")
    else if address == 20103 then ("0.01", "Hz")
    else if address == 15208 then ("", "W")
    else if address == 25274 then ("", "A")
    else if 10000 <= address <= 10003 then ("", "C")
    else ("", "")
  }

  const TENTH: Number := Decimal(false, 1, -1)
  const HUNDREDTH: Number := Decimal(false, 1, -2)

  lemma UnitNumbers()
    ensures Stod("0.1") == Some(TENTH) && Stod("0.01") == Some(HUNDREDTH)
  {
    hide Stod;
    var tenth, hundredth := Lexeme(false, "0", "1", "", ""), Lexeme(false, "0", "01", "", "");
    StodLexeme(tenth);
    StodLexeme(hundredth);
    assert tenth.Text() == "0.1" && hundredth.Text() == "0.01";
    OneIs();
  }

  lemma OneIs()
    ensures DigitsValue("") == 0 && DigitsValue("0" + "1") == 1 && DigitsValue("0" + "01") == 1
    ensures Normalize(false, 1, -1) == TENTH && Normalize(false, 1, -2) == HUNDREDTH
  {
    assert "0" + "1" == "01" && "0" + "01" == "001";
    assert "001"[..2] == "00" && "01"[..1] == "0" && "00"[..1] == "0" && "0"[..0] == "";
  }

  /** A condition on a register sees its value in the unit: the multiplier is the number the unit begins with,
      one where it begins with none. */
  lemma RegisterMeans(address: nat, value: int)
    requires !(1 <= address % 256 <= 4)
    ensures var unit := UnitOf(address).0;
      if unit == "" then ScaledRegisterValue(address, value) == value as real
      else Stod(unit).Some? && ScaledRegisterValue(address, value) == value as real * ToReal(Stod(unit).value)
  {
    hide Stod;
    UnitNumbers();
    NextPower(0);
    NextPower(1);
  }

  // ----- Commands by their names -----

  /** Commands that go outside leave a mark and change nothing here. */
  lemma OutsideCommandMeans(p: Progress, text: string, data: string, address: uint32)
    ensures var name, q := Lower(text), Execute(p, RuleCommand(ParseCommandType(text), data, address));
      && (name == "send" ==> q == p.(s := p.s.(trace := p.s.trace + [Sent(data)])))
      && (name == "system" && data != "" ==> q == p.(s := p.s.(trace := p.s.trace + [SystemCall(data)])))
      && (name == "system" && data == "" ==> q == p)
  {
    hide Lower;
  }

  lemma VariableCommandMeans(p: Progress, text: string, data: string, address: uint32)
    ensures var name, q := Lower(text), Execute(p, RuleCommand(ParseCommandType(text), data, address));
      var before := if address in p.s.variables then p.s.variables[address] else 0.0;
      && (name == "setvar" ==>
            q == p.(s := p.s.(variables := p.s.variables[address := CommandNumber(data)])))
      && (name == "addvar" ==>
            q == p.(s := p.s.(variables := p.s.variables[address := before + CommandNumber(data)])))
      && (name == "subvar" ==>
            q == p.(s := p.s.(variables := p.s.variables[address := before - CommandNumber(data)])))
  {
    hide Lower, CommandNumber;
  }

  /** The first rule with the id given becomes enabled or disabled; nothing else of the rules changes. */
  lemma SwitchCommandMeans(p: Progress, text: string, data: string, address: uint32)
    requires Lower(text) == "enable" || Lower(text) == "disable"
    ensures var q, i := Execute(p, RuleCommand(ParseCommandType(text), data, address)), Find(p.s.rules, TargetId(data));
      var enabled := Lower(text) == "enable";
      && q.s.rules ==
         (if TargetId(data) > 0 && i < |p.s.rules|
          then p.s.rules[i := p.s.rules[i].(enabled := enabled)] else p.s.rules)
      && q.modified == (p.modified || q.s.rules != p.s.rules)
      && q.s.variables == p.s.variables && q.s.file == p.s.file
  {
    hide Lower, TargetId;
  }

  lemma UnknownCommandMeans(p: Progress, text: string, data: string, address: uint32)
    requires var name := Lower(text);
      && name != "send" && name != "system" && name != "enable" && name != "disable"
      && name != "setvar" && name != "addvar" && name != "subvar"
    ensures Execute(p, RuleCommand(ParseCommandType(text), data, address)) == p
  {
    hide Lower;
  }

  // ----- A variable behind a list of commands -----

  predicate Sets(c: RuleCommand, key: uint32) {
    c.kind == SetVar && c.address == key
  }

  /** The number of commands up to the last that sets the variable, 0 when none does. */
  function LastSet(cs: seq<RuleCommand>, key: uint32): (n: nat)
    ensures n <= |cs|
  {
    if cs == [] then 0
    else if Sets(cs[|cs| - 1], key) then |cs|
    else LastSet(cs[..|cs| - 1], key)
  }

  /** What the commands add to the variable and subtract from it, all together. */
  function Sum(cs: seq<RuleCommand>, key: uint32): real {
    if cs == [] then 0.0
    else
      var c := cs[|cs| - 1];
      Sum(cs[..|cs| - 1], key) +
      if c.address != key then 0.0
      else if c.kind == AddVar then CommandNumber(c.data)
      else if c.kind == SubVar then -CommandNumber(c.data)
      else 0.0
  }

  /** The value set last, or the one from before, and the sum of what came after. */
  function Balance(cs: seq<RuleCommand>, key: uint32, before: real): real {
    var n := LastSet(cs, key);
    (if n == 0 then before else CommandNumber(cs[n - 1].data)) + Sum(cs[n..], key)
  }

  lemma {:induction false} ExecuteLast(p: Progress, cs: seq<RuleCommand>)
    requires cs != []
    ensures var n := |cs| - 1; ExecuteAll(p, cs) == Execute(ExecuteAll(p, cs[..n]), cs[n])
    decreases |cs|
  {
    hide Execute;
    var n := |cs| - 1;
    if n > 0 {
      ExecuteLast(Execute(p, cs[0]), cs[1..]);
      assert cs[1..][..n - 1] == cs[..n][1..];
    }
  }

  lemma BalanceNext(cs: seq<RuleCommand>, key: uint32, before: real)
    requires cs != []
    ensures var n := |cs| - 1;
      var value := Balance(cs[..n], key, before);
      Balance(cs, key, before) ==
      if cs[n].address != key then value
      else if cs[n].kind == SetVar then CommandNumber(cs[n].data)
      else if cs[n].kind == AddVar then value + CommandNumber(cs[n].data)
      else if cs[n].kind == SubVar then value - CommandNumber(cs[n].data)
      else value
  {
    hide CommandNumber;
    var n := |cs| - 1;
    var k := LastSet(cs, key);
    if k <= n {
      assert cs[..n][k..] == cs[k..][..n - k];
    }
  }

  lemma VariableNext(p: Progress, c: RuleCommand, key: uint32)
    ensures var before, q := VariableValue(p.s.variables, key), Execute(p, c);
      VariableValue(q.s.variables, key) ==
      if c.address != key then before
      else if c.kind == SetVar then CommandNumber(c.data)
      else if c.kind == AddVar then before + CommandNumber(c.data)
      else if c.kind == SubVar then before - CommandNumber(c.data)
      else before
  {
    hide CommandNumber, TargetId;
  }

  /** What a condition on a variable reads behind any list of commands. */
  lemma {:induction false} VariableIsBalance(p: Progress, cs: seq<RuleCommand>, key: uint32, inputs: Inputs)
    ensures InputValue(Variable, key, ExecuteAll(p, cs).s.variables, inputs) ==
      Some(Balance(cs, key, VariableValue(p.s.variables, key)))
    decreases |cs|
  {
    hide Execute, ScaledRegisterValue, CommandNumber;
    if cs != [] {
      var n := |cs| - 1;
      hide Balance, VariableValue, ExecuteAll;
      VariableIsBalance(p, cs[..n], key, inputs);
      ExecuteLast(p, cs);
      VariableNext(ExecuteAll(p, cs[..n]), cs[n], key);
      BalanceNext(cs, key, VariableValue(p.s.variables, key));
    }
  }
}
