/**
 Every way through enforcing a contract, told from the settings alone: what validates, what the model replies, which
 rule fires first, and what the declared action then makes of it.
 */
module ContractPaths {
  import opened Basics
  import opened Contracts
  import opened ContractLaws

  // ---------------------------------------------------------------- what the settings say

  /** What the reply to a call validates as, None when it does not. */
  function Answer(s: Setting, call: nat): Option<Value> {
    s.validate(s.textOf(Text(s.reply(call))))
  }

  /** The text is invalid as it is and after the deterministic repair. */
  predicate InvalidBothWays(s: Setting, v: Value) {
    s.validate(s.textOf(v)).None? && s.validate(s.textOf(Text(s.repaired(s.textOf(v))))).None?
  }

  /** What the output is worth before any model is asked: itself without a schema, else what it validates as. */
  predicate ValidAs(s: Setting, c: Contract, v: Value, x: Value) {
    if !c.hasSchema then x == v
    else if s.validate(s.textOf(v)).Some? then s.validate(s.textOf(v)) == Some(x)
    else s.validate(s.textOf(Text(s.repaired(s.textOf(v))))) == Some(x)
  }

  /** The call is the first from `first` on whose reply validates. */
  ghost predicate FirstValid(s: Setting, first: nat, call: nat) {
    first <= call && Answer(s, call).Some? && forall j: nat :: first <= j < call ==> Answer(s, j).None?
  }

  /** None of the calls from `first` up to `end` has a reply that validates. */
  ghost predicate NoneValid(s: Setting, first: nat, end: nat) {
    forall j: nat :: first <= j < end ==> Answer(s, j).None?
  }

  /** The model can be asked to repair. */
  predicate CanAsk(s: Setting) {
    s.hasMessages && s.hasModel
  }

  // ---------------------------------------------------------------- what an action makes of an output

  /** Nothing but the stored report and the calls made differ. */
  predicate Stored(w: World, w': World, calls: nat, rows: seq<Row>, d: Disposition) {
    w' == World(calls, w.decision, w.entries, Some(Report(rows, d)))
  }

  /** A gate: approved, rejected, or still to be decided. The decision may be used up by reading it. */
  predicate GateOpened(s: Setting, v: Value, w: World, rows: seq<Row>, verdict: Verdict, w': World) {
    && w'.calls == w.calls && w'.entries == w.entries
    && w'.decision == (if s.consumesDecisions then NoDecision else w.decision)
    && (w.decision == Approve ==> verdict == Returned(v) && w'.report == Some(Report(rows, GateApproved)))
    && (w.decision == Decision.Reject ==> verdict == ContractError && w'.report == Some(Report(rows, Rejected(Gate))))
    && (w.decision in {NoDecision, Unclear} ==>
          verdict == ApprovalRequired && w'.report == Some(Report(rows, Rejected(Gate))))
  }

  /** A call to a fallback model has the first usable answer: the first that validates, or the first at all. */
  ghost predicate Recovers(s: Setting, c: Contract, first: nat, call: nat, x: Value) {
    && CanAsk(s) && call < first + s.fallbacks
    && if c.hasSchema then FirstValid(s, first, call) && Answer(s, call) == Some(x)
       else call == first && x == Text(s.reply(first))
  }

  /** No fallback answer is usable. */
  ghost predicate NoneRecovers(s: Setting, c: Contract, first: nat) {
    CanAsk(s) ==> if c.hasSchema then NoneValid(s, first, first + s.fallbacks) else s.fallbacks == 0
  }

  /**
   A fallback: enforcement enters itself again with the first usable answer; with none it raises after all the calls.
   */
  ghost predicate FellBackFrom(
    s: Setting, c: Contract, rows: seq<Row>, w: World, error: Verdict, verdict: Verdict, w': World)
  {
    && (forall call: nat, x :: Recovers(s, c, w.calls, call, x) ==>
          (verdict, w') == Enforce(s, x, World(call + 1, w.decision, w.entries, Some(Report(rows, FellBack))),
                                   false, true))
    && (NoneRecovers(s, c, w.calls) ==>
          verdict == error && Stored(w, w', w.calls + (if CanAsk(s) then s.fallbacks else 0), rows, FellBack))
  }

  /** What is left when a declared action is carried out for an output that failed. */
  ghost predicate CarriedOut(
    s: Setting, c: Contract, v: Value, rows: seq<Row>, w: World, declared: Action, error: Verdict, rule: Option<Rule>,
    allowFallback: bool, verdict: Verdict, w': World)
  {
    match declared
    case Fail => verdict == error && Stored(w, w', w.calls, rows, Rejected(Fail))
    case Repair => verdict == error && Stored(w, w', w.calls, rows, Rejected(Repair))
    case RedactAndContinue =>
      verdict == Returned(s.redact(v, rule)) && Stored(w, w', w.calls, rows, Rejected(RedactAndContinue))
    case Gate => GateOpened(s, v, w, rows, verdict, w')
    case Fallback =>
      if allowFallback then FellBackFrom(s, c, rows, w, error, verdict, w')
      else verdict == error && Stored(w, w', w.calls, rows, Rejected(Fail))
  }

  /** The action declared for a case, to fail unless something is declared. */
  predicate Declares(declared: Option<Action>, action: Action) {
    declared == Some(action) || (declared == None && action == Fail)
  }

  // ---------------------------------------------------------------- carrying out an action

  lemma {:induction false} FallbacksTried(s: Setting, c: Contract, left: nat, calls: nat)
    requires c.hasSchema
    ensures var (x, made) := FirstFallback(s, c, left, calls);
            if x.None? then made == calls + left && NoneValid(s, calls, made)
            else 0 < made <= calls + left && FirstValid(s, calls, made - 1) && Answer(s, made - 1) == x
    decreases left
  {
    if left > 0 && Answer(s, calls).None? { FallbacksTried(s, c, left - 1, calls + 1); }
  }

  lemma RecoveryMeans(s: Setting, c: Contract, calls: nat)
    ensures var (x, made) := FallbackOnce(s, c, calls);
            if x.None? then NoneRecovers(s, c, calls) && made == calls + if CanAsk(s) then s.fallbacks else 0
            else made > calls && Recovers(s, c, calls, made - 1, x.value) && !NoneRecovers(s, c, calls)
  {
    if CanAsk(s) && s.fallbacks > 0 && c.hasSchema { FallbacksTried(s, c, s.fallbacks, calls); }
  }

  lemma RecoveryIsOne(s: Setting, c: Contract, first: nat, j: nat, x: Value, k: nat, y: Value)
    requires Recovers(s, c, first, j, x) && Recovers(s, c, first, k, y)
    ensures j == k && x == y && !NoneRecovers(s, c, first)
  {}

  lemma SomeRecovers(s: Setting, c: Contract, first: nat, j: nat, x: Value)
    requires Recovers(s, c, first, j, x)
    ensures !NoneRecovers(s, c, first)
  {}

  /** Whatever is declared is carried out. */
  lemma ActionsAreCarriedOut(
    s: Setting, c: Contract, v: Value, rows: seq<Row>, w: World, declared: Action, cause: Cause, error: Verdict,
    rule: Option<Rule>, allowFallback: bool)
    requires error == match cause case Refusal => ContractRefused case Exhaustion => ContractExhausted
                                  case Other => ContractError
    ensures var (verdict, w') := Finish(s, c, v, rows, w, declared, cause, rule, allowFallback);
            CarriedOut(s, c, v, rows, w, declared, error, rule, allowFallback, verdict, w')
  {
    if declared == Fallback && allowFallback {
      FallbackIsCarriedOut(s, c, v, rows, w, cause, error, rule);
    }
  }

  lemma FallbackUnfolds(s: Setting, c: Contract, v: Value, rows: seq<Row>, w: World, cause: Cause, rule: Option<Rule>)
    ensures var (recovered, made) := FallbackOnce(s, c, w.calls);
            var w1 := World(made, w.decision, w.entries, Some(Report(rows, FellBack)));
            Finish(s, c, v, rows, w, Fallback, cause, rule, true)
            == if recovered.Some? then Enforce(s, recovered.value, w1, false, true) else (Raise(cause), w1)
  {}

  lemma FallbackIsCarriedOut(
    s: Setting, c: Contract, v: Value, rows: seq<Row>, w: World, cause: Cause, error: Verdict, rule: Option<Rule>)
    requires error == match cause case Refusal => ContractRefused case Exhaustion => ContractExhausted
                                  case Other => ContractError
    ensures var (verdict, w') := Finish(s, c, v, rows, w, Fallback, cause, rule, true);
            FellBackFrom(s, c, rows, w, error, verdict, w')
  {
    var (recovered, made) := FallbackOnce(s, c, w.calls);
    FallbackUnfolds(s, c, v, rows, w, cause, rule);
    RecoveryMeans(s, c, w.calls);
    forall call: nat, x | Recovers(s, c, w.calls, call, x) ensures recovered == Some(x) && made == call + 1 {
      SomeRecovers(s, c, w.calls, call, x);
      RecoveryIsOne(s, c, w.calls, call, x, made - 1, recovered.value);
    }
  }

  // ---------------------------------------------------------------- the rules

  /** No rule fires: the value is returned, every rule is on record, and each judge was asked once. */
  ghost predicate AllRulesPass(
    s: Setting, c: Contract, v: Value, w: World, fromFallback: bool, verdict: Verdict, w': World)
  {
    && AllPass(s, c.rules, v, w.calls)
    && verdict == Returned(v)
    && Stored(w, w', w.calls + Judges(c.rules), NoneFired(c.rules), if fromFallback then FellBack else Passed)
  }

  /** The rule fires on the value, in this call if it asks a model and there is one. */
  predicate FiresAt(s: Setting, rule: Rule, v: Value, call: nat) {
    if !rule.judged then s.fires(rule.id, v) else !s.hasModel || s.judgedBad(rule.id, v, s.reply(call))
  }

  /** Rule `i` is the first that fires. */
  ghost predicate FiresFirst(s: Setting, rules: seq<Rule>, v: Value, calls: nat, i: nat) {
    && i < |rules| && AllPass(s, rules[..i], v, calls)
    && FiresAt(s, rules[i], v, calls + Judges(rules[..i]))
  }

  /** Rule `i` is the first that fires, and its action is carried out. */
  ghost predicate RuleDecides(
    s: Setting, c: Contract, v: Value, w: World, i: nat, allowFallback: bool, verdict: Verdict, w': World)
  {
    && FiresFirst(s, c.rules, v, w.calls, i)
    && var rule, asked := c.rules[i], w.calls + Judges(c.rules[..i]);
       CarriedOut(s, c, v, NoneFired(c.rules[..i]) + [Row(rule.id, true)],
                  w.(calls := asked + if rule.judged && s.hasModel then 1 else 0), rule.onFail, ContractError,
                  Some(rule), allowFallback, verdict, w')
  }

  /** The rules decide about a value: none fires, or the first that does. */
  ghost predicate RulesDecide(
    s: Setting, c: Contract, v: Value, w: World, allowFallback: bool, fromFallback: bool, verdict: Verdict, w': World)
  {
    || AllRulesPass(s, c, v, w, fromFallback, verdict, w')
    || exists i: nat :: RuleDecides(s, c, v, w, i, allowFallback, verdict, w')
  }

  /** What the rule phase leaves when rule `i` fires first. */
  ghost predicate FiredLeaves(s: Setting, rules: seq<Rule>, calls: nat, i: nat, rows: seq<Row>, made: nat) {
    && i < |rules| && rows == NoneFired(rules[..i]) + [Row(rules[i].id, true)]
    && made == calls + Judges(rules[..i]) + if rules[i].judged && s.hasModel then 1 else 0
  }

  lemma {:induction false} LaterFires(s: Setting, rules: seq<Rule>, v: Value, calls: nat, i: nat)
    requires rules != [] && RulePasses(s, rules[0], v, calls)
    requires FiresFirst(s, rules[1..], v, calls + (if rules[0].judged then 1 else 0), i)
    ensures FiresFirst(s, rules, v, calls, i + 1)
  {
    var front := rules[..i + 1];
    assert front[1..] == rules[1..][..i] && front[0] == rules[0];
    AllPassCons(s, front, v, calls);
  }

  lemma {:induction false} LaterLeaves(s: Setting, rules: seq<Rule>, calls: nat, i: nat, rows: seq<Row>, made: nat)
    requires rules != [] && (rules[0].judged ==> s.hasModel)
    requires FiredLeaves(s, rules[1..], calls + (if rules[0].judged then 1 else 0), i, rows, made)
    ensures FiredLeaves(s, rules, calls, i + 1, [Row(rules[0].id, false)] + rows, made)
  {
    var front := rules[..i + 1];
    assert front[1..] == rules[1..][..i] && front[0] == rules[0];
    assert [Row(rules[0].id, false)] + (NoneFired(rules[1..][..i]) + [Row(rules[i + 1].id, true)])
        == NoneFired(front) + [Row(rules[i + 1].id, true)];
  }

  lemma {:induction false} FirstFiring(s: Setting, rules: seq<Rule>, v: Value, calls: nat)
    ensures var (at, rows, made) := RulePhase(s, rules, v, calls);
            at.Some? ==> FiresFirst(s, rules, v, calls, at.value) && FiredLeaves(s, rules, calls, at.value, rows, made)
  {
    if rules != [] {
      var (fired, made) := RuleFires(s, rules[0], v, calls);
      if fired {
        assert rules[..0] == [];
      } else {
        FirstFiring(s, rules[1..], v, made);
        var (at, rows, total) := RulePhase(s, rules[1..], v, made);
        if at.Some? {
          LaterFires(s, rules, v, calls, at.value);
          LaterLeaves(s, rules, calls, at.value, rows, total);
        }
      }
    }
  }

  lemma FirstRuleDecides(
    s: Setting, c: Contract, v: Value, w: World, allowFallback: bool, fromFallback: bool, i: nat)
    requires RulePhase(s, c.rules, v, w.calls).0 == Some(i)
    ensures var (verdict, w') := AfterSchema(s, c, v, w, allowFallback, fromFallback);
            RuleDecides(s, c, v, w, i, allowFallback, verdict, w')
  {
    var (_, rows, total) := RulePhase(s, c.rules, v, w.calls);
    FirstFiring(s, c.rules, v, w.calls);
    ActionsAreCarriedOut(s, c, v, rows, w.(calls := total), c.rules[i].onFail, Other, ContractError, Some(c.rules[i]),
                         allowFallback);
  }

  /** None fires, or the first that does decides. */
  lemma RulesDecideValue(s: Setting, c: Contract, v: Value, w: World, allowFallback: bool, fromFallback: bool)
    ensures var (verdict, w') := AfterSchema(s, c, v, w, allowFallback, fromFallback);
            RulesDecide(s, c, v, w, allowFallback, fromFallback, verdict, w')
  {
    var at := RulePhase(s, c.rules, v, w.calls).0;
    if at.Some? {
      FirstRuleDecides(s, c, v, w, allowFallback, fromFallback, at.value);
    } else {
      RulePhaseFacts(s, c.rules, v, w.calls);
    }
  }

  // ---------------------------------------------------------------- the whole enforcement

  /** Neither a decision nor a recording settles the output. */
  predicate PastDoor(s: Setting, c: Contract, w: World) {
    && s.contract == Some(c) && s.replay.None? && w.decision != Decision.Reject
    && !(w.decision == Approve && s.storedOutput.Some?)
  }

  /** The world past the door: entered once more, and the decision perhaps used up. */
  function Inside(s: Setting, w: World): World {
    World(w.calls, if s.consumesDecisions then NoDecision else w.decision, w.entries + 1, w.report)
  }

  /**
   At the door: no contract, an approval of an output kept from before, a rejection, a recording. Nothing is checked,
   asked or stored.
   */
  lemma DoorMeans(s: Setting, v: Value, w: World, allowFallback: bool, fromFallback: bool)
    ensures var (verdict, w') := Enforce(s, v, w, allowFallback, fromFallback);
            && (s.contract.None? ==> verdict == Returned(v) && w' == w.(entries := w.entries + 1))
            && (s.contract.Some? && w.decision == Approve && s.storedOutput.Some? ==>
                  verdict == Returned(s.storedOutput.value) && w' == Inside(s, w))
            && (s.contract.Some? && w.decision == Decision.Reject ==> verdict == ContractError && w' == Inside(s, w))
            && (s.contract.Some? && w.decision in {NoDecision, Unclear} && s.replay.Some? ==>
                  verdict == Returned(s.replay.value) && w' == Inside(s, w))
            && (s.contract.Some? && w.decision == Approve && s.storedOutput.None? && s.replay.Some? ==>
                  verdict == Returned(s.replay.value) && w' == Inside(s, w))
  {}

  /** A refusal is not checked any further: what is declared for refusals is carried out. */
  lemma RefusalMeans(
    s: Setting, c: Contract, v: Value, w: World, action: Action, allowFallback: bool, fromFallback: bool)
    requires PastDoor(s, c, w) && s.refuses(s.textOf(v)) && Declares(c.onRefusal, action)
    ensures var (verdict, w') := Enforce(s, v, w, allowFallback, fromFallback);
            CarriedOut(s, c, v, [], Inside(s, w), action, ContractRefused, None, allowFallback, verdict, w')
  {
    ActionsAreCarriedOut(s, c, v, [], Inside(s, w), action, Refusal, ContractRefused, None, allowFallback);
  }

  /** An output valid as it is or once repaired goes on to the rules without a call. */
  lemma ValidMeans(
    s: Setting, c: Contract, v: Value, w: World, x: Value, allowFallback: bool, fromFallback: bool)
    requires PastDoor(s, c, w) && !s.refuses(s.textOf(v)) && ValidAs(s, c, v, x)
    ensures var (verdict, w') := Enforce(s, v, w, allowFallback, fromFallback);
            RulesDecide(s, c, x, Inside(s, w), allowFallback, fromFallback, verdict, w')
  {
    RulesDecideValue(s, c, x, Inside(s, w), allowFallback, fromFallback);
  }

  /** An invalid output that is not to be repaired by the model: what is declared is carried out without a call. */
  lemma InvalidMeans(s: Setting, c: Contract, v: Value, w: World, allowFallback: bool, fromFallback: bool)
    requires PastDoor(s, c, w) && !s.refuses(s.textOf(v)) && c.hasSchema && InvalidBothWays(s, v)
    requires c.onInvalid != Repair
    ensures var (verdict, w') := Enforce(s, v, w, allowFallback, fromFallback);
            CarriedOut(s, c, v, [], Inside(s, w), c.onInvalid, ContractError, None, allowFallback, verdict, w')
  {
    ActionsAreCarriedOut(s, c, v, [], Inside(s, w), c.onInvalid, Other, ContractError, None, allowFallback);
  }

  /** The output is invalid both ways and the model is to repair it. */
  predicate ToBeRepaired(s: Setting, c: Contract, v: Value, w: World) {
    && PastDoor(s, c, w) && !s.refuses(s.textOf(v)) && c.hasSchema && InvalidBothWays(s, v) && c.onInvalid == Repair
  }

  lemma {:induction false} RepliesTried(s: Setting, left: nat, calls: nat, last: Value)
    ensures var (parsed, value, made) := AskAgain(s, left, calls, last);
            if parsed.None? then
              && made == calls + left && NoneValid(s, calls, made)
              && value == if left == 0 then last else Text(s.reply(made - 1))
            else 0 < made <= calls + left && FirstValid(s, calls, made - 1) && Answer(s, made - 1) == Some(value)
    decreases left
  {
    if left > 0 && Answer(s, calls).None? { RepliesTried(s, left - 1, calls + 1, Text(s.reply(calls))); }
  }

  lemma {:induction false} RepliesUntilValid(s: Setting, n: nat, calls: nat, call: nat, last: Value)
    requires call < calls + n && FirstValid(s, calls, call)
    ensures AskAgain(s, n, calls, last) == (Answer(s, call), Answer(s, call).value, call + 1)
    decreases n
  {
    if calls < call {
      assert Answer(s, calls).None?;
      RepliesUntilValid(s, n - 1, calls + 1, call, Text(s.reply(calls)));
    }
  }

  lemma GoesOn(
    s: Setting, c: Contract, v: Value, w: World, x: Value, made: nat, allowFallback: bool, fromFallback: bool)
    requires PastDoor(s, c, w) && !s.refuses(s.textOf(v)) && SchemaPhase(s, c, v, w.calls) == (true, x, made)
    ensures Enforce(s, v, w, allowFallback, fromFallback)
         == AfterSchema(s, c, x, Inside(s, w).(calls := made), allowFallback, fromFallback)
  {}

  /**
   The model is asked until its first valid reply. If that comes within the repair limit, its value goes on to the
   rules, and no call was made behind it.
   */
  lemma RepairGoesOn(
    s: Setting, c: Contract, v: Value, w: World, call: nat, allowFallback: bool, fromFallback: bool)
    requires ToBeRepaired(s, c, v, w) && CanAsk(s) && call < w.calls + c.maxRepairs && FirstValid(s, w.calls, call)
    ensures var (verdict, w') := Enforce(s, v, w, allowFallback, fromFallback);
            RulesDecide(s, c, Answer(s, call).value, Inside(s, w).(calls := call + 1), allowFallback, fromFallback,
                        verdict, w')
  {
    RepliesUntilValid(s, c.maxRepairs, w.calls, call, Nothing);
    GoesOn(s, c, v, w, Answer(s, call).value, call + 1, allowFallback, fromFallback);
    RulesDecideValue(s, c, Answer(s, call).value, Inside(s, w).(calls := call + 1), allowFallback, fromFallback);
  }

  /** What is left of the output when repairing failed: the last reply, nothing when there was none. */
  function LastReply(s: Setting, first: nat, n: nat): Value {
    if n == 0 then Nothing else Text(s.reply(first + n - 1))
  }

  /** With no valid reply within the limit the output is exhausted, after exactly that many calls. */
  lemma RepairGivesUp(
    s: Setting, c: Contract, v: Value, w: World, action: Action, allowFallback: bool, fromFallback: bool)
    requires ToBeRepaired(s, c, v, w) && CanAsk(s) && NoneValid(s, w.calls, w.calls + c.maxRepairs)
    requires Declares(c.onExhausted, action)
    ensures var (verdict, w') := Enforce(s, v, w, allowFallback, fromFallback);
            CarriedOut(s, c, LastReply(s, w.calls, c.maxRepairs), [], Inside(s, w).(calls := w.calls + c.maxRepairs),
                       action, ContractExhausted, None, allowFallback, verdict, w')
  {
    RepliesTried(s, c.maxRepairs, w.calls, Nothing);
    ActionsAreCarriedOut(s, c, LastReply(s, w.calls, c.maxRepairs), [],
                         Inside(s, w).(calls := w.calls + c.maxRepairs), action, Exhaustion, ContractExhausted, None,
                         allowFallback);
  }

  /** Without a model to ask, or without messages, it is exhausted at once. */
  lemma NobodyToAsk(
    s: Setting, c: Contract, v: Value, w: World, action: Action, allowFallback: bool, fromFallback: bool)
    requires ToBeRepaired(s, c, v, w) && !CanAsk(s) && Declares(c.onExhausted, action)
    ensures var (verdict, w') := Enforce(s, v, w, allowFallback, fromFallback);
            CarriedOut(s, c, Nothing, [], Inside(s, w), action, ContractExhausted, None, allowFallback, verdict, w')
  {
    ActionsAreCarriedOut(s, c, Nothing, [], Inside(s, w), action, Exhaustion, ContractExhausted, None, allowFallback);
  }

  /** Either some reply is the first valid one, or none is valid. */
  lemma {:induction false} FirstOrNone(s: Setting, first: nat, end: nat)
    requires first <= end
    ensures NoneValid(s, first, end) <==> !exists call: nat :: call < end && FirstValid(s, first, call)
  {
    if first < end {
      FirstOrNone(s, first, end - 1);
      if NoneValid(s, first, end - 1) && Answer(s, end - 1).Some? { assert FirstValid(s, first, end - 1); }
    }
  }

  /**
   When exhaustion is to fail and no rule falls back, enforcement raises it, after exactly as many calls as the limit,
   if and only if none of those replies is valid.
   */
  lemma ExhaustedIff(s: Setting, c: Contract, v: Value, w: World, allowFallback: bool, fromFallback: bool)
    requires ToBeRepaired(s, c, v, w) && CanAsk(s) && Declares(c.onExhausted, Fail)
    requires forall i :: 0 <= i < |c.rules| ==> c.rules[i].onFail != Fallback
    ensures var (verdict, w') := Enforce(s, v, w, allowFallback, fromFallback);
            && (verdict == ContractExhausted <==> NoneValid(s, w.calls, w.calls + c.maxRepairs))
            && (verdict == ContractExhausted ==>
                  w' == World(w.calls + c.maxRepairs, Inside(s, w).decision, w.entries + 1,
                              Some(Report([], Rejected(Fail)))))
  {
    FirstOrNone(s, w.calls, w.calls + c.maxRepairs);
    var (verdict, w') := Enforce(s, v, w, allowFallback, fromFallback);
    if call: nat :| call < w.calls + c.maxRepairs && FirstValid(s, w.calls, call) {
      RepairGoesOn(s, c, v, w, call, allowFallback, fromFallback);
      RulesNeverExhaust(s, c, Answer(s, call).value, Inside(s, w).(calls := call + 1), allowFallback, fromFallback,
                        verdict, w');
    } else {
      RepairGivesUp(s, c, v, w, Fail, allowFallback, fromFallback);
    }
  }

  lemma RulesNeverExhaust(
    s: Setting, c: Contract, v: Value, w: World, allowFallback: bool, fromFallback: bool, verdict: Verdict, w': World)
    requires RulesDecide(s, c, v, w, allowFallback, fromFallback, verdict, w')
    requires forall i :: 0 <= i < |c.rules| ==> c.rules[i].onFail != Fallback
    ensures verdict != ContractExhausted
  {}
}
