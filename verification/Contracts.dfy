/**
 Enforcing the output contract of a node: schema check, deterministic repair, a bounded repair loop with the model,
 rules, and one re-entry with a fallback model. Models, judges, validation and rule evaluation are given as functions;
 the k-th model call of a run is answered by `reply(k)`.
 */
module Contracts {
  import opened Basics

  /** A node's output: text, or data that came out of validation; `Nothing` is the absent value. */
  datatype Value = Text(s: string) | Data(id: int) | Nothing

  datatype Action = Fail | Repair | Fallback | Gate | RedactAndContinue

  /** A content rule; `judged` ones ask a model. */
  datatype Rule = Rule(id: nat, judged: bool, onFail: Action)

  datatype Contract = Contract(
    hasSchema: bool, rules: seq<Rule>, onInvalid: Action, maxRepairs: nat,
    onExhausted: Option<Action>, onRefusal: Option<Action>)

  /** What a human decided about the node's gate. */
  datatype Decision = NoDecision | Approve | Reject | Unclear

  /** Everything the enforcement consults. */
  datatype Setting = Setting(
    contract: Option<Contract>,
    textOf: Value -> string,
    validate: string -> Option<Value>,
    repaired: string -> string,
    refuses: string -> bool,
    fires: (nat, Value) -> bool,
    judgedBad: (nat, Value, string) -> bool,
    reply: nat -> string,
    redact: (Value, Option<Rule>) -> Value,
    hasModel: bool, hasMessages: bool, fallbacks: nat,
    storedOutput: Option<Value>,
    replay: Option<Value>,
    consumesDecisions: bool)

  /** What is stored about an output. A fallback leaves one mark, whether its output passed or nothing came of it. */
  datatype Disposition = Passed | FellBack | GateApproved | Rejected(action: Action)

  function Marked(action: Action): Disposition {
    if action == Fallback then FellBack else Rejected(action)
  }

  /** One evaluated rule, and whether it fired. */
  datatype Row = Row(rule: nat, fired: bool)

  datatype Report = Report(rows: seq<Row>, disposition: Disposition)

  /** What changes while enforcing: calls made, the decision still to be read, times entered, the report stored last. */
  datatype World = World(calls: nat, decision: Decision, entries: nat, report: Option<Report>)

  datatype Verdict =
    | Returned(value: Value)
    | ContractError
    | ContractRefused
    | ContractExhausted
    | ApprovalRequired

  // ---------------------------------------------------------------- the parts

  /** Reading the decision may use it up. */
  function AfterReading(s: Setting, w: World): World {
    if s.consumesDecisions then w.(decision := NoDecision) else w
  }

  function Validated(s: Setting, v: Value): Option<Value> {
    s.validate(s.textOf(v))
  }

  /** Ask the model up to `left` more times: the first valid reply if there is one, the last reply, the calls made. */
  function AskAgain(s: Setting, left: nat, calls: nat, last: Value): (Option<Value>, Value, nat)
    decreases left
  {
    if left == 0 then (None, last, calls) else
    var text := Text(s.reply(calls));
    var parsed := Validated(s, text);
    if parsed.Some? then (parsed, parsed.value, calls + 1) else AskAgain(s, left - 1, calls + 1, text)
  }

  /** The schema phase: whether the output is valid in the end, the value it left, and the calls made so far. */
  function SchemaPhase(s: Setting, c: Contract, v: Value, calls: nat): (bool, Value, nat) {
    if !c.hasSchema then (true, v, calls) else
    var direct := Validated(s, v);
    if direct.Some? then (true, direct.value, calls) else
    var fixed := Validated(s, Text(s.repaired(s.textOf(v))));
    if fixed.Some? then (true, fixed.value, calls)
    else if c.onInvalid != Repair then (false, v, calls)
    else if !s.hasMessages || !s.hasModel then (false, Nothing, calls)
    else
      var (parsed, last, made) := AskAgain(s, c.maxRepairs, calls, Nothing);
      (parsed.Some?, last, made)
  }

  /** Whether a rule fires, and the calls made by then. A judge without a model fires. */
  function RuleFires(s: Setting, rule: Rule, v: Value, calls: nat): (bool, nat) {
    if !rule.judged then (s.fires(rule.id, v), calls)
    else if !s.hasModel then (true, calls)
    else (s.judgedBad(rule.id, v, s.reply(calls)), calls + 1)
  }

  /** Rules in order up to the first that fires: its index, the rows recorded, the calls made. */
  function RulePhase(s: Setting, rules: seq<Rule>, v: Value, calls: nat): (Option<nat>, seq<Row>, nat) {
    if rules == [] then (None, [], calls) else
    var (fired, made) := RuleFires(s, rules[0], v, calls);
    if fired then (Some(0), [Row(rules[0].id, true)], made) else
    var (at, rows, total) := RulePhase(s, rules[1..], v, made);
    (if at.Some? then Some(at.value + 1) else None, [Row(rules[0].id, false)] + rows, total)
  }

  /** The outcome of the rule phase, given that `k` rules did not fire and left `rows`. */
  function After(k: nat, rows: seq<Row>, rest: (Option<nat>, seq<Row>, nat)): (Option<nat>, seq<Row>, nat) {
    (if rest.0.Some? then Some(rest.0.value + k) else None, rows + rest.1, rest.2)
  }

  /** Ask up to `left` fallback models: the first usable answer, and the calls made. */
  function FirstFallback(s: Setting, c: Contract, left: nat, calls: nat): (Option<Value>, nat)
    decreases left
  {
    if left == 0 then (None, calls) else
    var text := Text(s.reply(calls));
    if !c.hasSchema then (Some(text), calls + 1) else
    var parsed := Validated(s, text);
    if parsed.Some? then (parsed, calls + 1) else FirstFallback(s, c, left - 1, calls + 1)
  }

  function FallbackOnce(s: Setting, c: Contract, calls: nat): (Option<Value>, nat) {
    if !s.hasMessages || s.fallbacks == 0 || !s.hasModel then (None, calls) else FirstFallback(s, c, s.fallbacks, calls)
  }

  /** Why the contract is not met, as far as the raised error tells. */
  datatype Cause = Refusal | Exhaustion | Other

  function Raise(cause: Cause): Verdict {
    match cause
    case Refusal => ContractRefused
    case Exhaustion => ContractExhausted
    case Other => ContractError
  }

  function Store(w: World, rows: seq<Row>, d: Disposition): World {
    w.(report := Some(Report(rows, d)))
  }

  /** Carry out the declared action for an output that failed its contract. */
  function Finish(
    s: Setting, c: Contract, v: Value, rows: seq<Row>, w: World, declared: Action, cause: Cause,
    rule: Option<Rule>, allowFallback: bool): (Verdict, World)
    decreases allowFallback, 0
  {
    var action := if declared == Fallback && !allowFallback then Fail else declared;
    var w1 := Store(w, rows, Marked(action));
    match action
    case RedactAndContinue => (Returned(s.redact(v, rule)), w1)
    case Gate =>
      var w2 := AfterReading(s, w1);
      if w1.decision == Approve then (Returned(v), Store(w2, rows, GateApproved))
      else if w1.decision == Reject then (ContractError, w2)
      else (ApprovalRequired, w2)
    case Fallback =>
      var (recovered, made) := FallbackOnce(s, c, w1.calls);
      var w2 := w1.(calls := made);
      if recovered.Some? then Enforce(s, recovered.value, w2, false, true) else (Raise(cause), w2)
    case _ => (Raise(cause), w1)
  }

  function OrFail(a: Option<Action>): Action {
    if a.Some? then a.value else Fail
  }

  /** Check an output that no decision or recording settles. */
  function Check(s: Setting, c: Contract, v: Value, w: World, allowFallback: bool, fromFallback: bool): (Verdict, World)
    decreases allowFallback, 2
  {
    if s.refuses(s.textOf(v)) then
      Finish(s, c, v, [], w, OrFail(c.onRefusal), Refusal, None, allowFallback)
    else
      var (valid, current, made) := SchemaPhase(s, c, v, w.calls);
      var w1 := w.(calls := made);
      if !valid then
        Finish(s, c, current, [], w1, if c.onInvalid == Repair then OrFail(c.onExhausted) else c.onInvalid,
               if c.onInvalid == Repair then Exhaustion else Other, None, allowFallback)
      else AfterSchema(s, c, current, w1, allowFallback, fromFallback)
  }

  /** Apply the rules to an output that is structurally valid. */
  function AfterSchema(
    s: Setting, c: Contract, v: Value, w: World, allowFallback: bool, fromFallback: bool): (Verdict, World)
    decreases allowFallback, 1
  {
    var (at, rows, total) := RulePhase(s, c.rules, v, w.calls);
    var w1 := w.(calls := total);
    if at.Some? && at.value < |c.rules| then
      Finish(s, c, v, rows, w1, c.rules[at.value].onFail, Other, Some(c.rules[at.value]), allowFallback)
    else (Returned(v), Store(w1, rows, if fromFallback then FellBack else Passed))
  }

  /** Enforce the contract on one output. */
  function Enforce(s: Setting, v: Value, w: World, allowFallback: bool, fromFallback: bool): (Verdict, World)
    decreases allowFallback, 3
  {
    var w0 := w.(entries := w.entries + 1);
    if s.contract.None? then (Returned(v), w0) else
    var w1 := AfterReading(s, w0);
    if w.decision == Approve && s.storedOutput.Some? then (Returned(s.storedOutput.value), w1)
    else if w.decision == Reject then (ContractError, w1)
    else if s.replay.Some? then (Returned(s.replay.value), w1)
    else Check(s, s.contract.value, v, w1, allowFallback, fromFallback)
  }

  // ---------------------------------------------------------------- the program

  class Engine {
    const s: Setting
    var calls: nat
    var decision: Decision
    var entries: nat
    var report: Option<Report>

    constructor (s: Setting, decision: Decision)
      ensures this.s == s && Current() == World(0, decision, 0, None)
    {
      this.s, this.decision, calls, entries, report := s, decision, 0, 0, None;
    }

    function Current(): World
      reads this
    {
      World(calls, decision, entries, report)
    }

    method ReadDecision() returns (d: Decision)
      modifies this`decision
      ensures d == old(decision) && Current() == AfterReading(s, old(Current()))
    {
      d := decision;
      if s.consumesDecisions { decision := NoDecision; }
    }

    method Complete() returns (text: Value)
      modifies this`calls
      ensures text == Text(s.reply(old(calls))) && calls == old(calls) + 1
    {
      text := Text(s.reply(calls));
      calls := calls + 1;
    }

    method ModelRepairLoop(c: Contract) returns (parsed: Value, ok: bool)
      modifies this`calls
      ensures var r := if !s.hasMessages || !s.hasModel then (None, Nothing, old(calls))
                       else AskAgain(s, c.maxRepairs, old(calls), Nothing);
              (ok, parsed, calls) == (r.0.Some?, r.1, r.2)
    {
      if !s.hasMessages || !s.hasModel { return Nothing, false; }
      parsed := Nothing;
      for attempt := 0 to c.maxRepairs
        invariant AskAgain(s, c.maxRepairs - attempt, calls, parsed) == AskAgain(s, c.maxRepairs, old(calls), Nothing)
      {
        var text := Complete();
        var result := Validated(s, text);
        if result.Some? { return result.value, true; }
        parsed := text;
      }
      ok := false;
    }

    method EvaluateRule(rule: Rule, v: Value) returns (fired: bool)
      modifies this`calls
      ensures (fired, calls) == RuleFires(s, rule, v, old(calls))
    {
      if !rule.judged { return s.fires(rule.id, v); }
      if !s.hasModel { return true; }
      var text := Complete();
      return s.judgedBad(rule.id, v, text.s);
    }

    method TryFallbacks(c: Contract) returns (recovered: Option<Value>)
      modifies this`calls
      ensures (recovered, calls) == FallbackOnce(s, c, old(calls))
    {
      if !s.hasMessages || s.fallbacks == 0 || !s.hasModel { return None; }
      for k := 0 to s.fallbacks
        invariant FirstFallback(s, c, s.fallbacks - k, calls) == FirstFallback(s, c, s.fallbacks, old(calls))
      {
        var text := Complete();
        if !c.hasSchema { return Some(text); }
        var parsed := Validated(s, text);
        if parsed.Some? { return parsed; }
      }
      recovered := None;
    }

    method FinishOutput(
      c: Contract, v: Value, rows: seq<Row>, declared: Action, cause: Cause, rule: Option<Rule>, allowFallback: bool)
      returns (verdict: Verdict)
      requires s.contract == Some(c)
      modifies this
      ensures (verdict, Current()) == Finish(s, c, v, rows, old(Current()), declared, cause, rule, allowFallback)
      decreases allowFallback, 0
    {
      var action := declared;
      if action == Fallback && !allowFallback { action := Fail; }
      report := Some(Report(rows, Marked(action)));
      if action == RedactAndContinue { return Returned(s.redact(v, rule)); }
      if action == Gate {
        var decided := ReadDecision();
        if decided == Approve {
          report := Some(Report(rows, GateApproved));
          return Returned(v);
        }
        if decided == Reject { return ContractError; }
        return ApprovalRequired;
      }
      if action == Fallback {
        var recovered := TryFallbacks(c);
        if recovered.Some? {
          verdict := EnforceContract(recovered.value, false, true);
          return;
        }
      }
      return Raise(cause);
    }

    method EnforceContract(output: Value, allowFallback: bool, fromFallback: bool) returns (verdict: Verdict)
      modifies this
      ensures (verdict, Current()) == Enforce(s, output, old(Current()), allowFallback, fromFallback)
      decreases allowFallback, 2
    {
      entries := entries + 1;
      if s.contract.None? { return Returned(output); }
      var c := s.contract.value;
      var decided := ReadDecision();
      if decided == Approve && s.storedOutput.Some? { return Returned(s.storedOutput.value); }
      if decided == Reject { return ContractError; }
      if s.replay.Some? { return Returned(s.replay.value); }
      ghost var checking := Current();
      var current := output;
      if s.refuses(s.textOf(current)) {
        verdict := FinishOutput(c, current, [], OrFail(c.onRefusal), Refusal, None, allowFallback);
        return;
      }
      if c.hasSchema {
        var parsed := Validated(s, current);
        if parsed.Some? {
          current := parsed.value;
        } else {
          parsed := Validated(s, Text(s.repaired(s.textOf(current))));
          var valid := parsed.Some?;
          if valid {
            current := parsed.value;
          } else if c.onInvalid == Repair {
            current, valid := ModelRepairLoop(c);
          }
          if !valid {
            var action := if c.onInvalid == Repair then OrFail(c.onExhausted) else c.onInvalid;
            var cause := if c.onInvalid == Repair then Exhaustion else Other;
            verdict := FinishOutput(c, current, [], action, cause, None, allowFallback);
            return;
          }
        }
      }
      assert SchemaPhase(s, c, output, checking.calls) == (true, current, calls);
      verdict := ApplyRules(c, current, allowFallback, fromFallback);
    }

    method ApplyRules(c: Contract, v: Value, allowFallback: bool, fromFallback: bool) returns (verdict: Verdict)
      requires s.contract == Some(c)
      modifies this
      ensures (verdict, Current()) == AfterSchema(s, c, v, old(Current()), allowFallback, fromFallback)
      decreases allowFallback, 1
    {
      var rows: seq<Row> := [];
      assert c.rules[0..] == c.rules;
      assert [] + RulePhase(s, c.rules, v, calls).1 == RulePhase(s, c.rules, v, calls).1;
      for k := 0 to |c.rules|
        invariant decision == old(decision) && entries == old(entries) && report == old(report)
        invariant RulePhase(s, c.rules, v, old(calls)) == After(k, rows, RulePhase(s, c.rules[k..], v, calls))
      {
        var rule := c.rules[k];
        RulesNext(s, c.rules, k, rows, v, calls);
        var fired := EvaluateRule(rule, v);
        rows := rows + [Row(rule.id, fired)];
        if fired {
          verdict := FinishOutput(c, v, rows, rule.onFail, Other, Some(rule), allowFallback);
          return;
        }
      }
      assert rows + [] == rows;
      report := Some(Report(rows, if fromFallback then FellBack else Passed));
      return Returned(v);
    }
  }

  /** Rule `k` decides, or the rules behind it do. */
  lemma RulesNext(s: Setting, rules: seq<Rule>, k: nat, rows: seq<Row>, v: Value, calls: nat)
    requires k < |rules|
    ensures var (fired, made) := RuleFires(s, rules[k], v, calls);
            After(k, rows, RulePhase(s, rules[k..], v, calls))
            == if fired then (Some(k), rows + [Row(rules[k].id, true)], made)
               else After(k + 1, rows + [Row(rules[k].id, false)], RulePhase(s, rules[k + 1..], v, made))
  {
    assert rules[k..][1..] == rules[k + 1..];
    var made := RuleFires(s, rules[k], v, calls).1;
    var rest := RulePhase(s, rules[k + 1..], v, made);
    assert rows + ([Row(rules[k].id, false)] + rest.1) == (rows + [Row(rules[k].id, false)]) + rest.1;
  }
}
