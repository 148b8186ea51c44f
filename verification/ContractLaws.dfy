/** What enforcement guarantees over every output, every model behaviour and every contract. */
module ContractLaws {
  import opened Basics
  import opened Contracts

  /** The value came out of validation, if the contract has a schema. */
  ghost predicate PassedSchema(s: Setting, c: Contract, v: Value) {
    c.hasSchema ==> exists text: string :: s.validate(text) == Some(v)
  }

  /** How many of the rules ask a model. */
  function Judges(rules: seq<Rule>): nat {
    if rules == [] then 0 else (if rules[0].judged then 1 else 0) + Judges(rules[1..])
  }

  /** The rule does not fire on the value; a judged rule was asked in call `call` and found no fault. */
  predicate RulePasses(s: Setting, rule: Rule, v: Value, call: nat) {
    if rule.judged then s.hasModel && !s.judgedBad(rule.id, v, s.reply(call)) else !s.fires(rule.id, v)
  }

  /** Every rule passes, the judged ones in turn by one call each from call `first` on. */
  ghost predicate AllPass(s: Setting, rules: seq<Rule>, v: Value, first: nat) {
    forall i :: 0 <= i < |rules| ==> RulePasses(s, rules[i], v, first + Judges(rules[..i]))
  }

  /** A value that meets its contract: validated, and passed by every rule, the judges being the last calls made. */
  ghost predicate Clean(s: Setting, c: Contract, v: Value, w: World) {
    && PassedSchema(s, c, v)
    && w.calls >= Judges(c.rules) && AllPass(s, c.rules, v, w.calls - Judges(c.rules))
    && w.report.Some? && w.report.value.rows == NoneFired(c.rules)
  }

  /** The rule fires on the value; a judged rule was asked in the last call, or there was no model to ask. */
  predicate RuleFired(s: Setting, rule: Rule, v: Value, calls: nat) {
    if rule.judged then !s.hasModel || (calls > 0 && s.judgedBad(rule.id, v, s.reply(calls - 1)))
    else s.fires(rule.id, v)
  }

  /** The contract wants the value redacted: for a rule of its own that fires, or as a refusal, or as invalid. */
  ghost predicate RedactionDue(s: Setting, c: Contract, v: Value, rule: Option<Rule>, calls: nat) {
    match rule
    case Some(q) => q in c.rules && q.onFail == RedactAndContinue && PassedSchema(s, c, v) && RuleFired(s, q, v, calls)
    case None =>
      || (c.onRefusal == Some(RedactAndContinue) && s.refuses(s.textOf(v)))
      || (c.hasSchema && c.onInvalid == RedactAndContinue && Validated(s, v).None?)
      || (c.hasSchema && c.onInvalid == Repair && c.onExhausted == Some(RedactAndContinue))
  }

  /** The value came out of a redaction that the contract wants. */
  ghost predicate Redacted(s: Setting, c: Contract, v: Value, calls: nat) {
    exists u, rule {:trigger s.redact(u, rule)} :: s.redact(u, rule) == v && RedactionDue(s, c, u, rule, calls)
  }

  /** The report says that the value was redacted, and it was; or that it passed, and it is clean. */
  ghost predicate Sound(s: Setting, c: Contract, v: Value, w: World) {
    && w.report.Some?
    && if w.report.value.disposition == Rejected(RedactAndContinue) then Redacted(s, c, v, w.calls)
       else w.report.value.disposition in {Passed, FellBack} && Clean(s, c, v, w)
  }

  function NoneFired(rules: seq<Rule>): seq<Row> {
    if rules == [] then [] else [Row(rules[0].id, false)] + NoneFired(rules[1..])
  }

  lemma {:induction false} AskAgainFacts(s: Setting, left: nat, calls: nat, last: Value)
    ensures var (parsed, value, made) := AskAgain(s, left, calls, last);
            && calls <= made <= calls + left
            && (parsed.Some? ==> parsed.value == value && exists text: string :: s.validate(text) == Some(value))
    decreases left
  {
    if left > 0 {
      var text := Text(s.reply(calls));
      if Validated(s, text).None? { AskAgainFacts(s, left - 1, calls + 1, text); }
    }
  }

  lemma SchemaPhaseFacts(s: Setting, c: Contract, v: Value, calls: nat)
    ensures var (valid, value, made) := SchemaPhase(s, c, v, calls);
            && calls <= made <= calls + c.maxRepairs
            && (valid ==> PassedSchema(s, c, value))
            && (!valid ==> c.hasSchema && (c.onInvalid != Repair ==> value == v && Validated(s, v).None?))
  {
    AskAgainFacts(s, c.maxRepairs, calls, Nothing);
  }

  lemma {:induction false} AllPassCons(s: Setting, rules: seq<Rule>, v: Value, first: nat)
    requires rules != [] && RulePasses(s, rules[0], v, first)
    requires AllPass(s, rules[1..], v, first + if rules[0].judged then 1 else 0)
    ensures AllPass(s, rules, v, first)
  {
    forall i | 0 <= i < |rules| ensures RulePasses(s, rules[i], v, first + Judges(rules[..i])) {
      if i > 0 {
        assert rules[..i][1..] == rules[1..][..i - 1] && rules[i] == rules[1..][i - 1];
      }
    }
  }

  lemma {:induction false} RulePhaseFacts(s: Setting, rules: seq<Rule>, v: Value, calls: nat)
    ensures var (at, rows, made) := RulePhase(s, rules, v, calls);
            && calls <= made <= calls + Judges(rules)
            && (at.Some? ==> at.value < |rules| && RuleFired(s, rules[at.value], v, made))
            && (at.None? ==> rows == NoneFired(rules) && made == calls + Judges(rules) && AllPass(s, rules, v, calls))
  {
    if rules != [] {
      var (fired, made) := RuleFires(s, rules[0], v, calls);
      if !fired {
        RulePhaseFacts(s, rules[1..], v, made);
        if RulePhase(s, rules[1..], v, made).0.None? { AllPassCons(s, rules, v, calls); }
      }
    }
  }

  lemma {:induction false} FirstFallbackFacts(s: Setting, c: Contract, left: nat, calls: nat)
    ensures calls <= FirstFallback(s, c, left, calls).1 <= calls + left
    decreases left
  {
    if left > 0 { FirstFallbackFacts(s, c, left - 1, calls + 1); }
  }

  /** The most calls one pass can make before it finishes. */
  function PassCost(c: Contract): nat {
    c.maxRepairs + Judges(c.rules)
  }

  /** The most calls the rest of an enforcement can make once an output has failed. */
  function FinishCost(s: Setting, c: Contract, allowFallback: bool): nat {
    if allowFallback then s.fallbacks + PassCost(c) else 0
  }

  function ExtraEntries(allowFallback: bool): nat {
    if allowFallback then 1 else 0
  }

  /** An approval of an output kept from before. */
  predicate SettledAtTheDoor(s: Setting, d: Decision) {
    d == Approve && s.storedOutput.Some?
  }

  /**
   What every way through an enforcement keeps, unless it is settled at the door: a returned value is clean, or was
   redacted, or was approved by a decision there to be read, and the report says which; calls and entries are bounded.
   */
  ghost predicate Closed(s: Setting, c: Contract, w: World, r: (Verdict, World), cost: nat, entries: nat) {
    && (r.0.Returned? ==>
          && r.1.report.Some?
          && (Sound(s, c, r.0.value, r.1)
              || (r.1.report.value.disposition == GateApproved && w.decision == Approve)))
    && r.1.decision in {w.decision, NoDecision}
    && w.calls <= r.1.calls <= w.calls + cost
    && w.entries <= r.1.entries <= w.entries + entries
  }

  lemma {:induction false} FinishIsClosed(
    s: Setting, c: Contract, v: Value, rows: seq<Row>, w: World, declared: Action, cause: Cause, rule: Option<Rule>,
    allowFallback: bool)
    requires s.contract == Some(c) && s.replay.None? && !SettledAtTheDoor(s, w.decision)
    requires declared == RedactAndContinue ==> RedactionDue(s, c, v, rule, w.calls)
    ensures Closed(s, c, w, Finish(s, c, v, rows, w, declared, cause, rule, allowFallback),
                   FinishCost(s, c, allowFallback), ExtraEntries(allowFallback))
    decreases allowFallback, 0
  {
    if declared == Fallback && allowFallback {
      FirstFallbackFacts(s, c, s.fallbacks, w.calls);
      var (recovered, made) := FallbackOnce(s, c, w.calls);
      if recovered.Some? {
        EnforceIsClosed(s, c, recovered.value, Store(w, rows, FellBack).(calls := made), false, true);
      }
    }
  }

  lemma {:induction false} AfterSchemaIsClosed(
    s: Setting, c: Contract, v: Value, w: World, allowFallback: bool, fromFallback: bool)
    requires s.contract == Some(c) && s.replay.None? && !SettledAtTheDoor(s, w.decision) && PassedSchema(s, c, v)
    ensures Closed(s, c, w, AfterSchema(s, c, v, w, allowFallback, fromFallback),
                   Judges(c.rules) + FinishCost(s, c, allowFallback), ExtraEntries(allowFallback))
    decreases allowFallback, 1
  {
    RulePhaseFacts(s, c.rules, v, w.calls);
    var (at, rows, total) := RulePhase(s, c.rules, v, w.calls);
    if at.Some? {
      var rule := c.rules[at.value];
      FinishIsClosed(s, c, v, rows, w.(calls := total), rule.onFail, Other, Some(rule), allowFallback);
    }
  }

  lemma {:induction false} CheckIsClosed(
    s: Setting, c: Contract, v: Value, w: World, allowFallback: bool, fromFallback: bool)
    requires s.contract == Some(c) && s.replay.None? && !SettledAtTheDoor(s, w.decision)
    ensures Closed(s, c, w, Check(s, c, v, w, allowFallback, fromFallback),
                   PassCost(c) + FinishCost(s, c, allowFallback), ExtraEntries(allowFallback))
    decreases allowFallback, 2
  {
    if s.refuses(s.textOf(v)) {
      FinishIsClosed(s, c, v, [], w, OrFail(c.onRefusal), Refusal, None, allowFallback);
    } else {
      SchemaPhaseFacts(s, c, v, w.calls);
      var (valid, current, made) := SchemaPhase(s, c, v, w.calls);
      var w1 := w.(calls := made);
      if valid {
        AfterSchemaIsClosed(s, c, current, w1, allowFallback, fromFallback);
      } else {
        FinishIsClosed(s, c, current, [], w1, if c.onInvalid == Repair then OrFail(c.onExhausted) else c.onInvalid,
                       if c.onInvalid == Repair then Exhaustion else Other, None, allowFallback);
      }
    }
  }

  lemma {:induction false} EnforceIsClosed(
    s: Setting, c: Contract, v: Value, w: World, allowFallback: bool, fromFallback: bool)
    requires s.contract == Some(c) && s.replay.None? && !SettledAtTheDoor(s, w.decision)
    ensures Closed(s, c, w, Enforce(s, v, w, allowFallback, fromFallback),
                   PassCost(c) + FinishCost(s, c, allowFallback), 1 + ExtraEntries(allowFallback))
    decreases allowFallback, 3
  {
    if w.decision != Reject {
      CheckIsClosed(s, c, v, AfterReading(s, w.(entries := w.entries + 1)), allowFallback, fromFallback);
    }
  }

  /**
   Fail closed. With no approval on record and no recording to replay, a value that enforcement returns came out of
   validation and fires no rule, whether directly, after repair, or from a fallback model; or the stored report says
   that it was redacted instead. Everything else raises.
   */
  lemma FailsClosed(s: Setting, c: Contract, v: Value, decision: Decision)
    requires s.contract == Some(c) && s.replay.None? && decision != Approve
    ensures var (verdict, w) := Enforce(s, v, World(0, decision, 0, None), true, false);
            verdict.Returned? ==>
              Sound(s, c, verdict.value, w)
  {
    EnforceIsClosed(s, c, v, World(0, decision, 0, None), true, false);
  }

  /** Past the door the output is checked, with what reading the decision left of it. */
  lemma PastTheDoor(s: Setting, c: Contract, v: Value, w: World, allowFallback: bool, fromFallback: bool)
    requires s.contract == Some(c) && s.replay.None? && !SettledAtTheDoor(s, w.decision) && w.decision != Reject
    ensures Enforce(s, v, w, allowFallback, fromFallback)
         == Check(s, c, v, AfterReading(s, w.(entries := w.entries + 1)), allowFallback, fromFallback)
  {}

  /** An approval that was used up at the door opens nothing. */
  lemma UsedUpOpensNothing(s: Setting, c: Contract, v: Value)
    requires s.contract == Some(c) && s.replay.None? && s.storedOutput.None? && s.consumesDecisions
    ensures var (verdict, w) := Enforce(s, v, World(0, Approve, 0, None), true, false);
            verdict.Returned? ==> Sound(s, c, verdict.value, w)
  {
    PastTheDoor(s, c, v, World(0, Approve, 0, None), true, false);
    CheckIsClosed(s, c, v, World(0, NoDecision, 1, None), true, false);
  }

  /**
   With an approval on record and no output kept from before, there is one more way to return: the approval is read at
   the node's gate, which it can be only when reading it at the door did not use it up.
   */
  lemma ApprovalOpensOnlyTheGate(s: Setting, c: Contract, v: Value)
    requires s.contract == Some(c) && s.replay.None? && s.storedOutput.None?
    ensures var (verdict, w) := Enforce(s, v, World(0, Approve, 0, None), true, false);
            verdict.Returned? ==>
              && w.report.Some?
              && (Sound(s, c, verdict.value, w)
                  || (w.report.value.disposition == GateApproved && !s.consumesDecisions))
  {
    if s.consumesDecisions {
      UsedUpOpensNothing(s, c, v);
    } else {
      EnforceIsClosed(s, c, v, World(0, Approve, 0, None), true, false);
    }
  }

  /**
   Enforcement ends after at most twice the repair limit, plus one call per fallback model, plus two per judged rule,
   and enters itself again at most once, whatever was decided.
   */
  lemma CallsAreBounded(s: Setting, c: Contract, v: Value, decision: Decision)
    requires s.contract == Some(c) && s.replay.None?
    ensures var w := Enforce(s, v, World(0, decision, 0, None), true, false).1;
            w.calls <= 2 * c.maxRepairs + s.fallbacks + 2 * Judges(c.rules) && w.entries <= 2
  {
    if !SettledAtTheDoor(s, decision) {
      EnforceIsClosed(s, c, v, World(0, decision, 0, None), true, false);
    }
  }

  /** The repair loop stops at the first valid reply, and gives up only when none of its replies is valid. */
  lemma {:induction false} FirstValidReplyWins(s: Setting, left: nat, calls: nat, last: Value)
    ensures var (parsed, value, made) := AskAgain(s, left, calls, last);
            && (parsed.None? ==>
                  && made == calls + left
                  && forall k: nat :: calls <= k < made ==> Validated(s, Text(s.reply(k))).None?)
            && (parsed.Some? ==> calls < made && Validated(s, Text(s.reply(made - 1))) == parsed)
            && (parsed.Some? ==> forall k: nat :: calls <= k < made - 1 ==> Validated(s, Text(s.reply(k))).None?)
    decreases left
  {
    if left > 0 {
      var text := Text(s.reply(calls));
      if Validated(s, text).None? { FirstValidReplyWins(s, left - 1, calls + 1, text); }
    }
  }

  lemma {:induction false} NoRuleFires(s: Setting, rules: seq<Rule>, v: Value, calls: nat)
    requires forall i :: 0 <= i < |rules| ==> !rules[i].judged && !s.fires(rules[i].id, v)
    ensures RulePhase(s, rules, v, calls) == (None, NoneFired(rules), calls)
  {
    if rules != [] {
      forall i | 0 <= i < |rules| - 1 ensures !rules[1..][i].judged && !s.fires(rules[1..][i].id, v) {
        assert rules[1..][i] == rules[i + 1];
      }
      assert !rules[0].judged;
      NoRuleFires(s, rules[1..], v, calls);
    }
  }

  /**
   An output that is no refusal, validates as it is or after the deterministic repair, and fires no rule, is returned
   as validated without any model call, and reported as passed.
   */
  lemma GoodOutputPasses(s: Setting, c: Contract, v: Value, good: Value, decision: Decision)
    requires s.contract == Some(c) && c.hasSchema && s.replay.None? && decision in {NoDecision, Unclear}
    requires !s.refuses(s.textOf(v))
    requires Validated(s, v) == Some(good)
             || (Validated(s, v).None? && Validated(s, Text(s.repaired(s.textOf(v)))) == Some(good))
    requires forall i :: 0 <= i < |c.rules| ==> !c.rules[i].judged && !s.fires(c.rules[i].id, good)
    ensures var (verdict, w) := Enforce(s, v, World(0, decision, 0, None), true, false);
            && verdict == Returned(good) && w.calls == 0 && w.entries == 1
            && w.report == Some(Report(NoneFired(c.rules), Passed))
  {
    NoRuleFires(s, c.rules, good, 0);
  }
}
