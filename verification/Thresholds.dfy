/** A rule whose conditions look at readings only, among any other rules: what it is seen as in every pass,
    and in which passes it fires (server/rules.hpp, lines 798-865 and 959-997). */
module Thresholds {
  import opened Options
  import opened Numbers
  import opened Rules
  import opened RulePrinter
  import opened RuleEngine
  import opened RuleRuns
  import opened Hysteresis

  // ----- The conditions, in plain comparisons -----

  predicate Holds(op: ConditionOperator, x: real, v: real) {
    match op
    case Equal => -0.000001 < x - v < 0.000001
    case NotEqual => x - v <= -0.000001 || 0.000001 <= x - v
    case Less => x < v
    case LessEqual => x <= v
    case Greater => x > v
    case GreaterEqual => x >= v
    case UnknownOperator => false
  }

  lemma CompareIs(op: ConditionOperator, x: real, v: real)
    ensures Compare(op, x, v) <==> Holds(op, x, v)
  {}

  /** Neither side is a variable. */
  predicate OnReadings(c: RuleCondition) {
    c.inputType != Variable && c.valueInputType != Variable
  }

  function InputReading(kind: ConditionInputType, address: uint32, inputs: Inputs): Option<real> {
    InputValue(kind, address, map[], inputs)
  }

  /** What a reading is compared with: the number of the condition, or another reading. */
  function Bound(c: RuleCondition, inputs: Inputs): Option<real> {
    if c.valueInputType == UnknownInput then Some(ToReal(c.valueNumber))
    else InputReading(c.valueInputType, c.valueInputAddress, inputs)
  }

  /** All the readings are there and compare as the conditions say. */
  predicate AllHold(cs: seq<RuleCondition>, inputs: Inputs) {
    forall i :: 0 <= i < |cs| ==>
      var x, v := InputReading(cs[i].inputType, cs[i].inputAddress, inputs), Bound(cs[i], inputs);
      x.Some? && v.Some? && Holds(cs[i].op, x.value, v.value)
  }

  lemma ReadingsDecide(cs: seq<RuleCondition>, variables: map<uint32, real>, inputs: Inputs)
    requires forall i :: 0 <= i < |cs| ==> OnReadings(cs[i])
    ensures ConditionsMet(cs, variables, inputs) <==> AllHold(cs, inputs)
  {
    hide ToReal, ScaledRegisterValue, Compare, Holds;
    forall i | 0 <= i < |cs|
      ensures var x, v := InputReading(cs[i].inputType, cs[i].inputAddress, inputs), Bound(cs[i], inputs);
        ConditionMet(cs[i], variables, inputs) <==> x.Some? && v.Some? && Holds(cs[i].op, x.value, v.value)
    {
      var x, v := InputReading(cs[i].inputType, cs[i].inputAddress, inputs), Bound(cs[i], inputs);
      if x.Some? && v.Some? {
        CompareIs(cs[i].op, x.value, v.value);
      }
    }
  }

  // ----- One rule among others -----

  /** No command of these aims at the rule with the id. */
  predicate LeaveAlone(cs: seq<RuleCommand>, id: uint32) {
    forall k :: 0 <= k < |cs| && (cs[k].kind == Enable || cs[k].kind == Disable) ==> TargetId(cs[k].data) != id
  }

  /** The i-th rule is enabled, has its id for itself, looks at readings only, and is switched by no rule. */
  ghost predicate Alone(rules: seq<Rule>, i: nat) {
    && i < |rules| && rules[i].enabled
    && (forall k :: 0 <= k < |rules| && k != i ==> rules[k].id != rules[i].id)
    && (forall k :: 0 <= k < |rules[i].conditions| ==> OnReadings(rules[i].conditions[k]))
    && (forall k :: 0 <= k < |rules| ==> LeaveAlone(rules[k].commands, rules[i].id))
  }

  /** The visits and firings of one rule. */
  function Own(trace: seq<Event>, id: uint32): seq<Event> {
    if trace == [] then []
    else
      var n := |trace| - 1;
      Own(trace[..n], id) +
      if (trace[n].Visited? || trace[n].Fired?) && trace[n].id == id then [trace[n]] else []
  }

  lemma OwnNext(trace: seq<Event>, e: Event, id: uint32)
    ensures Own(trace + [e], id) == Own(trace, id) + if (e.Visited? || e.Fired?) && e.id == id then [e] else []
  {
    assert (trace + [e])[..|trace|] == trace;
  }

  /** Nothing about the i-th rule has changed. */
  ghost predicate Untouched(p: Progress, q: Progress, i: nat, id: uint32) {
    && SameButFlags(p.s.rules, q.s.rules)
    && i < |p.s.rules| && q.s.rules[i] == p.s.rules[i]
    && Own(q.s.trace, id) == Own(p.s.trace, id) && LastState(q.s, id) == LastState(p.s, id)
  }

  lemma UntouchedTwice(p: Progress, q: Progress, r: Progress, i: nat, id: uint32)
    requires Untouched(p, q, i, id) && Untouched(q, r, i, id)
    ensures Untouched(p, r, i, id)
  {
    hide LastState, Own;
  }

  lemma UntouchedNow(p: Progress, i: nat, id: uint32)
    requires i < |p.s.rules|
    ensures Untouched(p, p, i, id)
  {
    hide LastState, Own;
  }

  lemma ExecuteLeaves(p: Progress, c: RuleCommand, i: nat, id: uint32)
    requires i < |p.s.rules| && p.s.rules[i].id == id
    requires c.kind == Enable || c.kind == Disable ==> TargetId(c.data) != id
    ensures Untouched(p, Execute(p, c), i, id)
  {
    hide TargetId, CommandNumber, VariableValue, Own;
    OwnNext(p.s.trace, Sent(c.data), id);
    OwnNext(p.s.trace, SystemCall(c.data), id);
    OwnNext(p.s.trace, Switched(TargetId(c.data), c.kind == Enable), id);
  }

  lemma {:induction false} ExecuteAllLeaves(p: Progress, cs: seq<RuleCommand>, i: nat, id: uint32)
    requires i < |p.s.rules| && p.s.rules[i].id == id && LeaveAlone(cs, id)
    ensures Untouched(p, ExecuteAll(p, cs), i, id)
    decreases |cs|
  {
    hide Execute, TargetId, Own, LastState;
    UntouchedNow(p, i, id);
    if cs != [] {
      var q := Execute(p, cs[0]);
      ExecuteLeaves(p, cs[0], i, id);
      assert forall k :: 0 <= k < |cs[1..]| ==> cs[1..][k] == cs[k + 1];
      ExecuteAllLeaves(q, cs[1..], i, id);
      UntouchedTwice(p, q, ExecuteAll(p, cs), i, id);
    }
  }

  lemma RecordOther(p: Progress, e: Event, i: nat, id: uint32)
    requires i < |p.s.rules| && ((e.Visited? || e.Fired?) ==> e.id != id)
    ensures Untouched(p, Record(p, e), i, id)
  {
    hide Own;
    OwnNext(p.s.trace, e, id);
  }

  lemma RememberOther(p: Progress, other: uint32, met: bool, i: nat, id: uint32)
    requires i < |p.s.rules| && other != id
    ensures Untouched(p, Remember(p, other, met), i, id)
  {}

  lemma VisitOther(p: Progress, rule: Rule, inputs: Inputs, i: nat, id: uint32)
    requires i < |p.s.rules| && p.s.rules[i].id == id && rule.id != id && LeaveAlone(rule.commands, id)
    ensures Untouched(p, Visit(p, rule, inputs), i, id)
  {
    hide Record, Remember, ExecuteAll, ConditionsMet, LastState, Own, LeaveAlone;
    var met := rule.enabled && ConditionsMet(rule.conditions, p.s.variables, inputs);
    var seen := Record(p, Visited(rule.id, rule.enabled, met));
    RecordOther(p, Visited(rule.id, rule.enabled, met), i, id);
    ExecuteAllLeaves(seen, rule.commands, i, id);
    var done := ExecuteAll(seen, rule.commands);
    RecordOther(done, Fired(rule.id), i, id);
    var fired := Record(done, Fired(rule.id));
    UntouchedTwice(p, seen, done, i, id);
    UntouchedTwice(p, done, fired, i, id);
    RememberOther(seen, rule.id, met, i, id);
    RememberOther(fired, rule.id, met, i, id);
    UntouchedTwice(p, seen, Remember(seen, rule.id, met), i, id);
    UntouchedTwice(p, fired, Remember(fired, rule.id, met), i, id);
  }

  /** What its turn adds: it is seen as met or not, and fires when it is met and was not before. */
  function Turn(id: uint32, last: bool, met: bool): seq<Event> {
    [Visited(id, true, met)] + if met && !last then [Fired(id)] else []
  }

  lemma VisitOwn(p: Progress, i: nat, inputs: Inputs)
    requires Alone(p.s.rules, i)
    ensures var rule := p.s.rules[i];
      var q, met := Visit(p, rule, inputs), AllHold(rule.conditions, inputs);
      && SameButFlags(p.s.rules, q.s.rules) && q.s.rules[i] == rule
      && Own(q.s.trace, rule.id) == Own(p.s.trace, rule.id) + Turn(rule.id, LastState(p.s, rule.id), met)
      && LastState(q.s, rule.id) == met
  {
    hide ConditionsMet, AllHold, ExecuteAll, Own, LeaveAlone;
    var rule := p.s.rules[i];
    var met := AllHold(rule.conditions, inputs);
    ReadingsDecide(rule.conditions, p.s.variables, inputs);
    var seen := Record(p, Visited(rule.id, true, met));
    OwnNext(p.s.trace, Visited(rule.id, true, met), rule.id);
    ExecuteAllLeaves(seen, rule.commands, i, rule.id);
    OwnNext(ExecuteAll(seen, rule.commands).s.trace, Fired(rule.id), rule.id);
  }

  lemma AloneStays(a: seq<Rule>, b: seq<Rule>, i: nat)
    requires Alone(a, i) && SameButFlags(a, b) && b[i] == a[i]
    ensures Alone(b, i)
  {
    hide LeaveAlone;
    forall k | 0 <= k < |b| ensures b[k].id == a[k].id && b[k].commands == a[k].commands {
      assert a[k].(enabled := true) == b[k].(enabled := true);
    }
  }

  lemma SameTwice(a: seq<Rule>, b: seq<Rule>, c: seq<Rule>)
    requires SameButFlags(a, b) && SameButFlags(b, c)
    ensures SameButFlags(a, c)
  {}

  /** The turn of the i-th rule in the rest of a pass, when it is still to come. */
  lemma {:induction false} PassTurn(p: Progress, j: nat, i: nat, inputs: Inputs)
    requires Alone(p.s.rules, i) && j <= |p.s.rules|
    ensures var rule := p.s.rules[i];
      var q, met, last := PassFrom(p, j, inputs), AllHold(rule.conditions, inputs), LastState(p.s, rule.id);
      && SameButFlags(p.s.rules, q.s.rules) && q.s.rules[i] == rule
      && Own(q.s.trace, rule.id) == Own(p.s.trace, rule.id) + (if j <= i then Turn(rule.id, last, met) else [])
      && LastState(q.s, rule.id) == if j <= i then met else last
    decreases |p.s.rules| - j
  {
    hide Visit, AllHold, Own, LastState, LeaveAlone, Turn;
    var rule := p.s.rules[i];
    if j < |p.s.rules| {
      var q := Visit(p, p.s.rules[j], inputs);
      if j == i {
        VisitOwn(p, i, inputs);
      } else {
        VisitOther(p, p.s.rules[j], inputs, i, rule.id);
      }
      AloneStays(p.s.rules, q.s.rules, i);
      PassTurn(q, j + 1, i, inputs);
      SameTwice(p.s.rules, q.s.rules, PassFrom(p, j, inputs).s.rules);
    }
  }

  /** Whether the conditions hold in each pass. */
  function Mets(cs: seq<RuleCondition>, passes: seq<Step>): (mets: seq<bool>)
    requires OnlyPasses(passes)
    ensures |mets| == |passes|
  {
    seq(|passes|, k requires 0 <= k < |passes| => AllHold(cs, passes[k].op.inputs))
  }

  /** Seen in each pass, and fired in those in which the conditions hold and did not in the pass before. */
  function Turns(id: uint32, last: bool, mets: seq<bool>): seq<Event>
    decreases |mets|
  {
    if mets == [] then [] else Turn(id, last, mets[0]) + Turns(id, mets[0], mets[1..])
  }

  /** Over any passes, missing readings included and whatever the other rules do: the visits and firings of
      a rule on readings are those that plain comparisons of the readings demand. */
  lemma {:induction false} FiresOnRisingEdges(s: Engine, i: nat, passes: seq<Step>)
    requires Alone(s.rules, i) && OnlyPasses(passes)
    ensures var rule := s.rules[i];
      Own(Run(s, passes).trace, rule.id) ==
      Own(s.trace, rule.id) + Turns(rule.id, LastState(s, rule.id), Mets(rule.conditions, passes))
    decreases |passes|
  {
    hide PassFrom, AllHold, Own, LastState, LeaveAlone, Turn, RulesText;
    var rule := s.rules[i];
    var last, mets := LastState(s, rule.id), Mets(rule.conditions, passes);
    if passes == [] {
      assert Own(s.trace, rule.id) + [] == Own(s.trace, rule.id);
    } else {
      var s1 := Evaluate(s, passes[0].op.inputs, passes[0].writable);
      PassTurn(Progress(s, false), 0, i, passes[0].op.inputs);
      KeptBySaving(Progress(s, false), passes[0], rule.id);
      AloneStays(s.rules, s1.rules, i);
      FiresOnRisingEdges(s1, i, passes[1..]);
      assert mets[1..] == Mets(rule.conditions, passes[1..]);
      var turn, more := Turn(rule.id, last, mets[0]), Turns(rule.id, mets[0], mets[1..]);
      assert (Own(s.trace, rule.id) + turn) + more == Own(s.trace, rule.id) + (turn + more);
    }
  }

  lemma KeptBySaving(p: Progress, pass: Step, id: uint32)
    requires pass.op.EvaluateOp?
    ensures LastState(SaveIfModified(PassFrom(p, 0, pass.op.inputs), pass.writable), id) ==
      LastState(PassFrom(p, 0, pass.op.inputs).s, id)
  {
    hide RulesText, PassFrom;
  }
}
