/** The rules engine over whole runs: the file agrees with the memory, and rules are edge triggered. */
module RuleRuns {
  import opened Options
  import opened Text
  import opened Numbers
  import opened Rules
  import opened RuleReader
  import opened RulePrinter
  import opened RulesFile
  import RoundTrip
  import opened RuleEngine

  datatype Op =
    | LoadOp
    | AddOp(rule: Rule)
    | DeleteOp(id: uint32)
    | SetEnabledOp(id: uint32, enabled: bool)
    | ExecuteOp(id: uint32)
    | EvaluateOp(inputs: Inputs)
    | SetVariableOp(key: uint32, value: real)
    | EditOp(file: Option<string>)

  /** An operation, and whether the rules file can be written when it is carried out. EditOp is
      somebody else's change of the file. */
  datatype Step = Step(op: Op, writable: bool)

  function Apply(s: Engine, op: Op, writable: bool): Engine {
    match op
    case LoadOp => Load(s)
    case AddOp(rule) => Add(s, rule, writable)
    case DeleteOp(id) => Delete(s, id, writable)
    case SetEnabledOp(id, enabled) => SetEnabled(s, id, enabled, writable)
    case ExecuteOp(id) => ExecuteRule(s, id, writable)
    case EvaluateOp(inputs) => Evaluate(s, inputs, writable)
    case SetVariableOp(key, value) => SetVariable(s, key, value)
    case EditOp(file) => s.(file := file)
  }

  function Run(s: Engine, steps: seq<Step>): Engine
    decreases |steps|
  {
    if steps == [] then s else Run(Apply(s, steps[0].op, steps[0].writable), steps[1..])
  }

  lemma {:induction false} RunLast(s: Engine, steps: seq<Step>)
    requires steps != []
    ensures var n := |steps| - 1; Run(s, steps) == Apply(Run(s, steps[..n]), steps[n].op, steps[n].writable)
    decreases |steps|
  {
    hide Apply;
    var n := |steps| - 1;
    if n > 0 {
      RunLast(Apply(s, steps[0].op, steps[0].writable), steps[1..]);
      assert steps[..n][1..] == steps[1..][..n - 1];
    }
  }

  // ----- The rules file agrees with the rules in memory -----

  /** Loading the file would give exactly these rules. */
  predicate Reads(file: Option<string>, rules: seq<Rule>) {
    match file
    case None => rules == []
    case Some(text) => ReadRules(text).Ok? && ReadRules(text).value == rules
  }

  predicate Agrees(s: Engine) {
    Reads(s.file, s.rules)
  }

  predicate WellFormed(rules: seq<Rule>) {
    WellFormedRules(FILE_LAYOUT, rules)
  }

  /** A successful save brings file and memory together exactly when the rules are well-formed. */
  lemma SavedAgrees(s: Engine)
    ensures Agrees(Save(s, true)) <==> WellFormed(s.rules)
  {
    hide WellFormedRules, ReadRules, RulesText, BlankLayout;
    LayoutsAreBlank();
    SavedRulesReadBack(FILE_LAYOUT, s.rules);
  }

  /** Loading brings memory and file together, a missing file being an empty list, and changes nothing when
      the file cannot be read. */
  lemma LoadAgrees(s: Engine)
    ensures if s.file.None? || ReadRules(s.file.value).Ok? then Agrees(Load(s)) else Load(s) == s
    ensures Load(s).file == s.file && Load(s).variables == s.variables
  {
    hide ReadRules, Unmet;
  }

  lemma FlagsKeepWellFormed(a: seq<Rule>, b: seq<Rule>)
    requires SameButFlags(a, b) && WellFormed(a)
    ensures WellFormed(b)
  {
    hide WellFormedCondition, WellFormedCommand;
    forall i | 0 <= i < |b| ensures WellFormedRule(FILE_LAYOUT, b[i]) {
      assert a[i].(enabled := true) == b[i].(enabled := true);
      assert WellFormedRule(FILE_LAYOUT, a[i]);
    }
  }

  lemma WithoutKeepsWellFormed(rules: seq<Rule>, id: uint32)
    requires WellFormed(rules)
    ensures WellFormed(Without(rules, id))
    decreases |rules|
  {
    hide WellFormedRule;
    if rules != [] {
      assert forall i :: 0 <= i < |rules[1..]| ==> rules[1..][i] == rules[i + 1];
      WithoutKeepsWellFormed(rules[1..], id);
    }
  }

  lemma AddedIsWellFormed(rules: seq<Rule>, rule: Rule)
    requires WellFormed(rules) && (rule.id != 0 ==> WellFormedRule(FILE_LAYOUT, rule))
    requires rule.id == 0 ==> WellFormedRule(FILE_LAYOUT, rule.(id := 1))
    ensures WellFormed(rules + [WithId(rules, rule)])
  {
    hide WellFormedCondition, WellFormedCommand, NextId;
    NextIdPositive(rules);
    var added := WithId(rules, rule);
    assert WellFormedRule(FILE_LAYOUT, added);
  }

  /** What may happen to rules and file while commands run: flags change, the file does not, and any
      change is reported. */
  ghost predicate OnlyFlags(p: Progress, q: Progress) {
    && SameButFlags(p.s.rules, q.s.rules) && q.s.file == p.s.file
    && (p.modified ==> q.modified)
    && (!q.modified ==> q.s.rules == p.s.rules)
  }

  lemma ExecuteEffect(p: Progress, c: RuleCommand)
    ensures OnlyFlags(p, Execute(p, c))
  {
    hide TargetId, CommandNumber, VariableValue;
  }

  lemma OnlyFlagsTransitive(p: Progress, q: Progress, r: Progress)
    requires OnlyFlags(p, q) && OnlyFlags(q, r)
    ensures OnlyFlags(p, r)
  {}

  lemma {:induction false} ExecuteAllEffect(p: Progress, cs: seq<RuleCommand>)
    ensures OnlyFlags(p, ExecuteAll(p, cs))
    decreases |cs|
  {
    hide Execute, OnlyFlags;
    if cs == [] {
      NothingChanged(p);
    } else {
      ExecuteEffect(p, cs[0]);
      ExecuteAllEffect(Execute(p, cs[0]), cs[1..]);
      OnlyFlagsTransitive(p, Execute(p, cs[0]), ExecuteAll(p, cs));
    }
  }

  lemma NothingChanged(p: Progress)
    ensures OnlyFlags(p, p)
  {}

  lemma VisitEffect(p: Progress, rule: Rule, inputs: Inputs)
    ensures OnlyFlags(p, Visit(p, rule, inputs))
  {
    hide ExecuteAll, ConditionsMet;
    ExecuteAllEffect(Record(p, Visited(rule.id, true, true)), rule.commands);
  }

  lemma {:induction false} PassEffect(p: Progress, i: nat, inputs: Inputs)
    requires i <= |p.s.rules|
    ensures var q := PassFrom(p, i, inputs);
      && SameButFlags(p.s.rules, q.s.rules) && q.s.file == p.s.file
      && (!q.modified ==> !p.modified && q.s.rules == p.s.rules)
    decreases |p.s.rules| - i
  {
    hide Visit;
    if i < |p.s.rules| {
      VisitEffect(p, p.s.rules[i], inputs);
      PassEffect(Visit(p, p.s.rules[i], inputs), i + 1, inputs);
    }
  }

  /** What is asked of a step: a rule to add has to be well-formed but for the id the engine gives it,
      and nobody else edits the file. */
  predicate Admissible(op: Op) {
    match op
    case AddOp(rule) => WellFormedRule(FILE_LAYOUT, if rule.id == 0 then rule.(id := 1) else rule)
    case EditOp(_) => false
    case _ => true
  }

  /** After a step either the file holds the rules in memory, or it has not been touched - and that,
      where it held them before, because it could not be written. */
  predicate FileKept(s: Engine, s': Engine, writable: bool) {
    Agrees(s') || (s'.file == s.file && (writable ==> !Agrees(s)))
  }

  lemma SaveKeepsFile(s: Engine, t: Engine, writable: bool)
    requires WellFormed(t.rules) && t.file == s.file
    ensures FileKept(s, Save(t, writable), writable)
  {
    hide Reads, WellFormed, RulesText;
    SavedAgrees(t);
  }

  lemma ProgressKeepsFile(s: Engine, p: Progress, writable: bool)
    requires WellFormed(s.rules)
    requires SameButFlags(s.rules, p.s.rules) && p.s.file == s.file && (!p.modified ==> p.s.rules == s.rules)
    ensures FileKept(s, SaveIfModified(p, writable), writable) && WellFormed(SaveIfModified(p, writable).rules)
  {
    hide WellFormed, Reads, RulesText;
    FlagsKeepWellFormed(s.rules, p.s.rules);
    SaveKeepsFile(s, p.s, writable);
  }

  lemma SwitchKeepsWellFormed(s: Engine, id: uint32, enabled: bool)
    requires WellFormed(s.rules)
    ensures WellFormed(Switch(s, id, enabled).rules) && Switch(s, id, enabled).file == s.file
  {
    hide WellFormed;
    FlagsKeepWellFormed(s.rules, Switch(s, id, enabled).rules);
  }

  lemma ApplyKeepsFile(s: Engine, op: Op, writable: bool, stored: seq<Rule>)
    requires WellFormed(s.rules) && Reads(s.file, stored) && WellFormed(stored) && Admissible(op)
    ensures WellFormed(Apply(s, op, writable).rules) && FileKept(s, Apply(s, op, writable), writable)
  {
    hide WellFormed, ReadRules, RulesText, WellFormedRule, ExecuteAll, Switch, PassFrom, Save;
    match op
    case LoadOp =>
    case AddOp(rule) =>
      AddedIsWellFormed(s.rules, rule);
      var more := Extended(s, WithId(s.rules, rule));
      SaveKeepsFile(s, more, writable);
      SaveKeepsRules(more, writable);
    case DeleteOp(id) =>
      WithoutKeepsWellFormed(s.rules, id);
      var kept := Reduced(s, id);
      SaveKeepsFile(s, kept, writable);
      SaveKeepsRules(kept, writable);
    case SetEnabledOp(id, enabled) =>
      SwitchKeepsWellFormed(s, id, enabled);
      SaveKeepsFile(s, Switch(s, id, enabled), writable);
      SaveKeepsRules(Switch(s, id, enabled), writable);
    case ExecuteOp(id) =>
      var i := Find(s.rules, id);
      if i < |s.rules| {
        ExecuteAllEffect(Progress(s, false), s.rules[i].commands);
        ProgressKeepsFile(s, ExecuteAll(Progress(s, false), s.rules[i].commands), writable);
      }
    case EvaluateOp(inputs) =>
      PassEffect(Progress(s, false), 0, inputs);
      ProgressKeepsFile(s, PassFrom(Progress(s, false), 0, inputs), writable);
    case SetVariableOp(key, value) =>
  }

  lemma SaveKeepsRules(s: Engine, writable: bool)
    ensures Save(s, writable).rules == s.rules
  {}

  /** Over any run, as long as the file can be written and nobody else edits it: loading the file
      gives exactly the rules in memory. */
  lemma {:induction false} FileAgreesWithMemory(s: Engine, steps: seq<Step>)
    requires Agrees(s) && WellFormed(s.rules)
    requires forall i :: 0 <= i < |steps| ==> Admissible(steps[i].op) && steps[i].writable
    ensures Agrees(Run(s, steps)) && WellFormed(Run(s, steps).rules)
    decreases |steps|
  {
    hide Reads, WellFormed, Admissible, Apply;
    if steps != [] {
      ApplyKeepsFile(s, steps[0].op, true, s.rules);
      FileAgreesWithMemory(Apply(s, steps[0].op, true), steps[1..]);
    }
  }

  /** Writes may fail at any step: the file then still loads, as exactly the well-formed rules that were
      in memory after some earlier step of the run. */
  lemma {:induction false} FileIsAnEarlierMemory(s: Engine, steps: seq<Step>) returns (k: nat)
    requires Agrees(s) && WellFormed(s.rules)
    requires forall i :: 0 <= i < |steps| ==> Admissible(steps[i].op)
    ensures k <= |steps| && Reads(Run(s, steps).file, Run(s, steps[..k]).rules)
    ensures WellFormed(Run(s, steps[..k]).rules) && WellFormed(Run(s, steps).rules)
    decreases |steps|
  {
    hide Reads, WellFormed, Admissible, Apply;
    if steps == [] {
      k := 0;
    } else {
      var n := |steps| - 1;
      k := FileIsAnEarlierMemory(s, steps[..n]);
      var before := Run(s, steps[..n]);
      assert steps[..n][..k] == steps[..k];
      RunLast(s, steps);
      ApplyKeepsFile(before, steps[n].op, steps[n].writable, Run(s, steps[..k]).rules);
      if Agrees(Run(s, steps)) {
        k := n + 1;
        assert steps[..k] == steps;
      }
    }
  }

  // ----- Rules are edge triggered -----

  /** An event after which the rule counts as not met: it was seen disabled or its conditions false,
      it was disabled, or it was loaded, deleted or added anew. */
  predicate Clears(e: Event, id: uint32) {
    || e == Visited(id, false, false)
    || e == Visited(id, true, false)
    || e == Switched(id, false)
    || e == Added(id)
    || e == Deleted(id)
    || e == Reloaded
  }

  /** As far as the events tell, the rule was met when it was last seen. */
  predicate MetLast(trace: seq<Event>, id: uint32) {
    if trace == [] then false
    else
      var e := trace[|trace| - 1];
      !Clears(e, id) && (e == Fired(id) || e == Visited(id, true, true) || MetLast(trace[..|trace| - 1], id))
  }

  predicate IsCommand(e: Event) {
    e.Sent? || e.SystemCall? || e.Switched?
  }

  /** The rule that has to fire now: it has just been seen enabled and met, and was not met before;
      only its own commands may come first. */
  function Pending(trace: seq<Event>): Option<uint32> {
    if trace == [] then None
    else
      var before, e := trace[..|trace| - 1], trace[|trace| - 1];
      if e.Visited? then
        if e.enabled && e.met && !MetLast(before, e.id) then Some(e.id) else None
      else if IsCommand(e) then Pending(before)
      else None
  }

  /** A rule fires when it has to, and only then. */
  predicate EdgeTriggered(trace: seq<Event>) {
    if trace == [] then true
    else
      var before, e := trace[..|trace| - 1], trace[|trace| - 1];
      EdgeTriggered(before) && (IsCommand(e) || Pending(before) == if e.Fired? then Some(e.id) else None)
  }

  /** The engine remembers what the events tell, but for the rule whose commands are running. */
  ghost predicate Tracked(s: Engine, firing: Option<uint32>) {
    && EdgeTriggered(s.trace) && Pending(s.trace) == firing
    && forall id: uint32 :: firing != Some(id) ==> (LastState(s, id) <==> MetLast(s.trace, id))
  }

  lemma Appended(trace: seq<Event>, e: Event)
    ensures EdgeTriggered(trace + [e]) <==>
      EdgeTriggered(trace) && (IsCommand(e) || Pending(trace) == if e.Fired? then Some(e.id) else None)
    ensures Pending(trace + [e]) ==
      if e.Visited? then (if e.enabled && e.met && !MetLast(trace, e.id) then Some(e.id) else None)
      else if IsCommand(e) then Pending(trace)
      else None
    ensures forall id: uint32 :: MetLast(trace + [e], id) <==>
      !Clears(e, id) && (e == Fired(id) || e == Visited(id, true, true) || MetLast(trace, id))
  {
    assert (trace + [e])[..|trace|] == trace;
  }

  /** One event that is neither a firing nor the cause of one. */
  lemma Quiet(s: Engine, s': Engine, e: Event)
    requires Tracked(s, None) && s'.trace == s.trace + [e] && !e.Fired?
    requires e.Visited? && e.enabled && e.met ==> MetLast(s.trace, e.id)
    requires forall id: uint32 :: LastState(s', id) <==>
      !Clears(e, id) && (e == Visited(id, true, true) || LastState(s, id))
    ensures Tracked(s', None)
  {
    hide MetLast, Pending, EdgeTriggered, Clears, LastState;
    Appended(s.trace, e);
  }

  lemma SwitchTracked(s: Engine, id: uint32, enabled: bool, firing: Option<uint32>)
    requires Tracked(s, firing)
    ensures Tracked(Switch(s, id, enabled), firing)
  {
    hide MetLast, Pending, EdgeTriggered, CanSwitch;
    if CanSwitch(s.rules, id, enabled) {
      Appended(s.trace, Switched(id, enabled));
    }
  }

  lemma ExecuteTracked(p: Progress, c: RuleCommand, firing: Option<uint32>)
    requires Tracked(p.s, firing)
    ensures Tracked(Execute(p, c).s, firing)
  {
    hide MetLast, Pending, EdgeTriggered, Switch, TargetId, CommandNumber, VariableValue, CanSwitch;
    match c.kind {
      case Send => Appended(p.s.trace, Sent(c.data));
      case System => Appended(p.s.trace, SystemCall(c.data));
      case Enable => SwitchTracked(p.s, TargetId(c.data), true, firing);
      case Disable => SwitchTracked(p.s, TargetId(c.data), false, firing);
      case _ =>
    }
  }

  lemma {:induction false} ExecuteAllTracked(p: Progress, cs: seq<RuleCommand>, firing: Option<uint32>)
    requires Tracked(p.s, firing)
    ensures Tracked(ExecuteAll(p, cs).s, firing)
    decreases |cs|
  {
    hide Execute, Tracked;
    if cs != [] {
      ExecuteTracked(p, cs[0], firing);
      ExecuteAllTracked(Execute(p, cs[0]), cs[1..], firing);
    }
  }

  lemma FireTracked(p: Progress, rule: Rule)
    requires Tracked(p.s, None) && !LastState(p.s, rule.id)
    ensures Tracked(Remember(Fire(Record(p, Visited(rule.id, true, true)), rule), rule.id, true).s, None)
  {
    hide MetLast, Pending, EdgeTriggered, ExecuteAll;
    var seen := Record(p, Visited(rule.id, true, true));
    Appended(p.s.trace, Visited(rule.id, true, true));
    ExecuteAllTracked(seen, rule.commands, Some(rule.id));
    Appended(ExecuteAll(seen, rule.commands).s.trace, Fired(rule.id));
  }

  lemma VisitTracked(p: Progress, rule: Rule, inputs: Inputs)
    requires Tracked(p.s, None)
    ensures Tracked(Visit(p, rule, inputs).s, None)
  {
    hide ConditionsMet, MetLast, Pending, EdgeTriggered, Fire;
    var met := ConditionsMet(rule.conditions, p.s.variables, inputs);
    if rule.enabled && met && !LastState(p.s, rule.id) {
      FireTracked(p, rule);
    } else {
      Quiet(p.s, Visit(p, rule, inputs).s, Visited(rule.id, rule.enabled, rule.enabled && met));
    }
  }

  lemma {:induction false} PassTracked(p: Progress, i: nat, inputs: Inputs)
    requires i <= |p.s.rules| && Tracked(p.s, None)
    ensures Tracked(PassFrom(p, i, inputs).s, None)
    decreases |p.s.rules| - i
  {
    hide Visit, Tracked;
    if i < |p.s.rules| {
      VisitTracked(p, p.s.rules[i], inputs);
      VisitKeepsRules(p, p.s.rules[i], inputs);
      PassTracked(Visit(p, p.s.rules[i], inputs), i + 1, inputs);
    }
  }

  lemma NoneMet(rules: seq<Rule>)
    ensures forall id: uint32 :: id in Unmet(rules) ==> !Unmet(rules)[id]
  {}

  lemma ApplyTracked(s: Engine, op: Op, writable: bool)
    requires Tracked(s, None)
    ensures Tracked(Apply(s, op, writable), None)
  {
    hide MetLast, Pending, EdgeTriggered, ReadRules, RulesText, ExecuteAll, PassFrom, Without, Find, CanSwitch,
        Switch, NextId, Unmet;
    var s' := Apply(s, op, writable);
    match op
    case LoadOp =>
      NoneMet(s'.rules);
      if s'.trace != s.trace { Quiet(s, s', Reloaded); }
    case AddOp(rule) => if s'.trace != s.trace { Quiet(s, s', Added(WithId(s.rules, rule).id)); }
    case DeleteOp(id) => if s'.trace != s.trace { Quiet(s, s', Deleted(id)); }
    case SetEnabledOp(id, enabled) => SwitchTracked(s, id, enabled, None);
    case ExecuteOp(id) =>
      if Find(s.rules, id) < |s.rules| {
        ExecuteAllTracked(Progress(s, false), s.rules[Find(s.rules, id)].commands, None);
      }
    case EvaluateOp(inputs) => PassTracked(Progress(s, false), 0, inputs);
    case SetVariableOp(key, value) =>
    case EditOp(file) =>
  }

  lemma {:induction false} RunTracked(s: Engine, steps: seq<Step>)
    requires Tracked(s, None)
    ensures Tracked(Run(s, steps), None)
    decreases |steps|
  {
    hide Tracked, Apply;
    if steps != [] {
      ApplyTracked(s, steps[0].op, steps[0].writable);
      RunTracked(Apply(s, steps[0].op, steps[0].writable), steps[1..]);
    }
  }

  predicate Started(s: Engine) {
    s.lastState == map[] && s.trace == []
  }

  /** Over any run from the start, whichever writes fail and whatever others do to the file: a rule fires
      exactly when it is seen enabled and met without having been met when it was last seen. */
  lemma RulesAreEdgeTriggered(s: Engine, steps: seq<Step>)
    requires Started(s)
    ensures var t := Run(s, steps).trace; EdgeTriggered(t) && Pending(t) == None
  {
    hide Run;
    RunTracked(s, steps);
  }

  /** A pending rule goes back to a visit, with nothing but commands since. */
  lemma {:induction false} PendingSince(trace: seq<Event>, id: uint32) returns (k: nat)
    requires Pending(trace) == Some(id)
    ensures k < |trace| && trace[k] == Visited(id, true, true) && !MetLast(trace[..k], id)
    ensures forall n :: k < n < |trace| ==> IsCommand(trace[n])
    decreases |trace|
  {
    hide MetLast;
    var n := |trace| - 1;
    if trace[n].Visited? {
      k := n;
    } else {
      k := PendingSince(trace[..n], id);
      assert trace[..n][..k] == trace[..k];
    }
  }

  lemma {:induction false} TriggeredPrefix(trace: seq<Event>, j: nat)
    requires EdgeTriggered(trace) && j <= |trace|
    ensures EdgeTriggered(trace[..j])
    decreases |trace|
  {
    hide Pending;
    if j < |trace| {
      TriggeredPrefix(trace[..|trace| - 1], j);
      assert trace[..|trace| - 1][..j] == trace[..j];
    } else {
      assert trace[..j] == trace;
    }
  }

  lemma {:induction false} MetUntilCleared(trace: seq<Event>, i: nat, id: uint32)
    requires i < |trace| && trace[i] == Fired(id)
    requires forall k :: i < k < |trace| ==> !Clears(trace[k], id)
    ensures MetLast(trace, id)
    decreases |trace|
  {
    hide Clears;
    var n := |trace| - 1;
    if i < n {
      MetUntilCleared(trace[..n], i, id);
    } else {
      assert !Clears(Fired(id), id) by { FiringClearsNothing(id); }
    }
  }

  lemma FiringClearsNothing(id: uint32)
    ensures !Clears(Fired(id), id)
  {}

  /** Between two firings of one rule, after the first has completed, it was seen disabled or not met,
      or was disabled, or was loaded, deleted or added anew. */
  lemma FiresOnEdgesOnly(s: Engine, steps: seq<Step>, i: nat, j: nat, id: uint32)
    requires Started(s)
    requires var t := Run(s, steps).trace; i < j < |t| && t[i] == t[j] == Fired(id)
    ensures var t := Run(s, steps).trace; exists k :: i < k < j && Clears(t[k], id)
  {
    hide Run, Clears, MetLast;
    var t := Run(s, steps).trace;
    RulesAreEdgeTriggered(s, steps);
    TriggeredPrefix(t, j + 1);
    assert t[..j + 1][..j] == t[..j];
    hide EdgeTriggered, Pending;
    var k := PendingSince(t[..j], id);
    assert i < k;
    assert t[..j][..k] == t[..k];
    if forall n :: i < n < k ==> !Clears(t[n], id) {
      MetUntilCleared(t[..k], i, id);
    }
  }

  lemma {:induction false} PendingFires(trace: seq<Event>, k: nat, id: uint32) returns (j: nat)
    requires EdgeTriggered(trace) && Pending(trace) == None
    requires k < |trace| && Pending(trace[..k + 1]) == Some(id)
    ensures k < j < |trace| && trace[j] == Fired(id) && forall n :: k < n < j ==> IsCommand(trace[n])
    decreases |trace| - k
  {
    hide MetLast;
    assert trace[..|trace|] == trace;
    var e := trace[k + 1];
    TriggeredPrefix(trace, k + 2);
    assert trace[..k + 2][..k + 1] == trace[..k + 1];
    if e.Fired? {
      j := k + 1;
    } else {
      j := PendingFires(trace, k + 1, id);
    }
  }

  /** And each time a rule is seen enabled and met without having been met before, it fires, with
      nothing but its commands in between. */
  lemma EveryEdgeFires(s: Engine, steps: seq<Step>, k: nat, id: uint32) returns (j: nat)
    requires Started(s)
    requires var t := Run(s, steps).trace; k < |t| && t[k] == Visited(id, true, true) && !MetLast(t[..k], id)
    ensures var t := Run(s, steps).trace;
      k < j < |t| && t[j] == Fired(id) && forall n :: k < n < j ==> IsCommand(t[n])
  {
    hide Run, MetLast;
    var t := Run(s, steps).trace;
    RulesAreEdgeTriggered(s, steps);
    assert t[..k + 1] == t[..k] + [t[k]];
    Appended(t[..k], t[k]);
    hide EdgeTriggered, Pending;
    j := PendingFires(t, k, id);
  }

  // ----- Every rule has its turn -----

  function Ids(rules: seq<Rule>): (r: seq<uint32>)
    ensures |r| == |rules|
  {
    seq(|rules|, i requires 0 <= i < |rules| => rules[i].id)
  }

  function VisitedIds(trace: seq<Event>): seq<uint32> {
    if trace == [] then []
    else
      var e := trace[|trace| - 1];
      VisitedIds(trace[..|trace| - 1]) + if e.Visited? then [e.id] else []
  }

  lemma OneMoreEvent(trace: seq<Event>, e: Event)
    ensures VisitedIds(trace + [e]) == VisitedIds(trace) + if e.Visited? then [e.id] else []
  {
    assert (trace + [e])[..|trace|] == trace;
  }

  lemma {:induction false} ExecuteAllVisits(p: Progress, cs: seq<RuleCommand>)
    ensures VisitedIds(ExecuteAll(p, cs).s.trace) == VisitedIds(p.s.trace)
    decreases |cs|
  {
    hide TargetId, CommandNumber, VariableValue, CanSwitch, VisitedIds;
    if cs != [] {
      var q := Execute(p, cs[0]);
      if q.s.trace != p.s.trace {
        OneMoreEvent(p.s.trace, q.s.trace[|p.s.trace|]);
      }
      ExecuteAllVisits(q, cs[1..]);
    }
  }

  lemma VisitIsSeen(p: Progress, rule: Rule, inputs: Inputs)
    ensures VisitedIds(Visit(p, rule, inputs).s.trace) == VisitedIds(p.s.trace) + [rule.id]
  {
    hide ConditionsMet, ExecuteAll, VisitedIds;
    var met := rule.enabled && ConditionsMet(rule.conditions, p.s.variables, inputs);
    var seen := Record(p, Visited(rule.id, rule.enabled, met));
    OneMoreEvent(p.s.trace, Visited(rule.id, rule.enabled, met));
    ExecuteAllVisits(seen, rule.commands);
    OneMoreEvent(ExecuteAll(seen, rule.commands).s.trace, Fired(rule.id));
  }

  lemma IdsStay(a: seq<Rule>, b: seq<Rule>, i: nat)
    requires SameButFlags(a, b) && i < |a|
    ensures Ids(a[i..]) == [a[i].id] + Ids(b[i + 1..])
  {
    assert forall k :: 0 <= k < |a| ==> a[k].(enabled := true).id == b[k].(enabled := true).id;
  }

  /** Whatever the commands switch on the way, a pass sees each rule of the list once, in order. */
  lemma {:induction false} PassVisitsInOrder(p: Progress, i: nat, inputs: Inputs)
    requires i <= |p.s.rules|
    ensures VisitedIds(PassFrom(p, i, inputs).s.trace) == VisitedIds(p.s.trace) + Ids(p.s.rules[i..])
    decreases |p.s.rules| - i
  {
    hide Visit, VisitedIds, Ids;
    if i < |p.s.rules| {
      var rule := p.s.rules[i];
      var q := Visit(p, rule, inputs);
      VisitIsSeen(p, rule, inputs);
      VisitKeepsRules(p, rule, inputs);
      PassVisitsInOrder(q, i + 1, inputs);
      IdsStay(p.s.rules, q.s.rules, i);
    } else {
      NoIds(p.s.rules[i..]);
    }
  }

  lemma NoIds(rules: seq<Rule>)
    requires rules == []
    ensures Ids(rules) == []
  {}

  // ----- New ids -----

  predicate HasId(rules: seq<Rule>, id: uint32) {
    exists i :: 0 <= i < |rules| && rules[i].id == id
  }

  /** The id given to a new rule is free, except when the two largest 32-bit ids are both taken: then
      it is the largest of them. */
  lemma {:induction false} NextIdIs(rules: seq<Rule>)
    ensures NextId(rules) == UINT32_RANGE - 1 <==> HasId(rules, UINT32_RANGE - 2)
    ensures forall i :: 0 <= i < |rules| && rules[i].id != UINT32_RANGE - 1 ==> rules[i].id < NextId(rules)
    decreases |rules|
  {
    if rules != [] {
      var n := |rules| - 1;
      NextIdIs(rules[..n]);
      assert HasId(rules, UINT32_RANGE - 2) == (HasId(rules[..n], UINT32_RANGE - 2) || rules[n].id == UINT32_RANGE - 2)
      by {
        if HasId(rules[..n], UINT32_RANGE - 2) {
          var i :| 0 <= i < n && rules[..n][i].id == UINT32_RANGE - 2;
          assert rules[i].id == UINT32_RANGE - 2;
        }
        if HasId(rules, UINT32_RANGE - 2) {
          var i :| 0 <= i < |rules| && rules[i].id == UINT32_RANGE - 2;
          if i < n {
            assert rules[..n][i].id == UINT32_RANGE - 2;
          }
        }
      }
      forall i | 0 <= i < |rules| && rules[i].id != UINT32_RANGE - 1 ensures rules[i].id < NextId(rules) {
        if i < n {
          assert rules[..n][i] == rules[i];
        }
      }
    }
  }

  lemma NewIdIsFree(rules: seq<Rule>)
    ensures HasId(rules, NextId(rules)) <==> HasId(rules, UINT32_RANGE - 2) && HasId(rules, UINT32_RANGE - 1)
  {
    hide NextId;
    NextIdIs(rules);
  }

  /** It is above every id but the largest number there is, and follows one of them or is 1. */
  lemma {:induction false} NewIdFollows(rules: seq<Rule>)
    ensures forall i :: 0 <= i < |rules| && rules[i].id != UINT32_RANGE - 1 ==> rules[i].id < NextId(rules)
    ensures NextId(rules) > 0 && (NextId(rules) == 1 || HasId(rules, NextId(rules) - 1))
    decreases |rules|
  {
    NextIdPositive(rules);
    NextIdIs(rules);
    if rules != [] {
      var n := |rules| - 1;
      NewIdFollows(rules[..n]);
      if NextId(rules) == NextId(rules[..n]) != 1 {
        var i :| 0 <= i < n && rules[..n][i].id == NextId(rules) - 1;
        assert rules[i].id == NextId(rules) - 1;
      } else if NextId(rules) != 1 {
        assert rules[n].id == NextId(rules) - 1;
      }
    }
  }

  predicate Distinct(rules: seq<Rule>) {
    forall i, j :: 0 <= i < j < |rules| ==> rules[i].id != rules[j].id
  }

  lemma DistinctWith(rules: seq<Rule>, added: Rule)
    requires Distinct(rules)
    ensures Distinct(rules + [added]) <==> !HasId(rules, added.id)
  {
    var more := rules + [added];
    if Distinct(more) {
      forall i | 0 <= i < |rules| ensures rules[i].id != added.id {
        assert more[i] == rules[i] && more[|rules|] == added;
      }
    }
  }

  /** Adding a rule keeps the ids of the rules apart - a taken id is refused - if and only if the rule has an
      id or one of the two largest is free. */
  lemma AddKeepsIdsApart(s: Engine, rule: Rule, writable: bool)
    requires Distinct(s.rules)
    ensures Distinct(Add(s, rule, writable).rules) <==>
      rule.id != 0 || !(HasId(s.rules, UINT32_RANGE - 2) && HasId(s.rules, UINT32_RANGE - 1))
    ensures rule.id != 0 && HasId(s.rules, rule.id) ==> Add(s, rule, writable) == s
  {
    hide RulesText, NextId, Distinct;
    NewIdIsFree(s.rules);
    DistinctWith(s.rules, WithId(s.rules, rule));
  }

  // ----- What undoes what -----

  lemma {:induction false} WithoutFresh(rules: seq<Rule>, added: Rule)
    requires !HasId(rules, added.id)
    ensures Without(rules + [added], added.id) == rules && Find(rules + [added], added.id) == |rules|
    decreases |rules|
  {
    if rules == [] {
      assert rules + [added] == [added];
    } else {
      assert rules[0].id != added.id;
      assert forall i :: 0 <= i < |rules[1..]| ==> rules[1..][i] == rules[i + 1];
      assert (rules + [added])[1..] == rules[1..] + [added];
      WithoutFresh(rules[1..], added);
    }
  }

  lemma {:induction false} WithoutConcat(a: seq<Rule>, b: seq<Rule>, id: uint32)
    ensures Without(a + b, id) == Without(a, id) + Without(b, id)
    decreases |a|
  {
    hide Without;
    if a == [] {
      assert a + b == b;
      NoneWithout(Without(b, id), id);
    } else {
      assert (a + b)[1..] == a[1..] + b;
      FirstOf(a, id);
      FirstOf(a + b, id);
      WithoutConcat(a[1..], b, id);
    }
  }

  /** Deleting takes away every rule with the id, wherever it stands, and keeps the others in their order. */
  lemma DeleteKeepsTheOthers(s: Engine, id: uint32, writable: bool, before: seq<Rule>, rule: Rule, after: seq<Rule>)
    requires s.rules == before + [rule] + after
    ensures var kept := Delete(s, id, writable).rules;
      kept == Without(before, id) + (if rule.id == id then [] else [rule]) + Without(after, id)
  {
    hide Delete, Without;
    DeletedRules(s, id, writable);
    WithoutConcat(before + [rule], after, id);
    WithoutConcat(before, [rule], id);
    FirstOf([rule], id);
    NoneWithout(if rule.id == id then [] else [rule], id);
  }

  lemma DeletedRules(s: Engine, id: uint32, writable: bool)
    ensures Delete(s, id, writable).rules == Without(s.rules, id)
  {
    hide RulesText, Without;
    if Find(s.rules, id) == |s.rules| {
      NothingToDelete(s.rules, id);
    }
  }

  lemma {:induction false} NothingToDelete(rules: seq<Rule>, id: uint32)
    requires Find(rules, id) == |rules|
    ensures Without(rules, id) == rules
    decreases |rules|
  {
    if rules != [] {
      NothingToDelete(rules[1..], id);
    }
  }

  /** Deleting a rule just added under a free id gives the old rules back. */
  lemma DeleteUndoesAdd(s: Engine, rule: Rule, writable: bool)
    requires !HasId(s.rules, WithId(s.rules, rule).id)
    ensures Add(s, rule, writable).rules == s.rules + [WithId(s.rules, rule)]
    ensures Delete(Add(s, rule, writable), WithId(s.rules, rule).id, writable).rules == s.rules
  {
    hide Without, NextId, RulesText;
    WithoutFresh(s.rules, WithId(s.rules, rule));
  }

  /** The id of a rule, printed, is what an enable or disable command aims at. */
  lemma CommandNamesItsRule(id: uint32)
    ensures TargetId(NatToString(id)) == id
  {
    hide NatToString, Stoul;
    RoundTrip.Uint32Back(id);
  }
}
