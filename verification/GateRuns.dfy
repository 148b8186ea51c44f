/** Whole lives of a gate: touches that may escalate it and cast a vote, and queries that only look. */
module GateRuns {
  import opened Basics
  import opened Texts
  import opened Gates
  import opened VoteOrder

  /**
   One look at the gate. A touch resumes the run: it may escalate, and it may bring a vote that was found eligible.
   A query only reports.
   */
  datatype Look =
    | Touch(now: int, targets: seq<string>, vote: Option<Vote>)
    | Query(now: int)

  /** `first` is what the touch found, `final` what it reported in the end. */
  datatype Report = Report(first: Status, final: Status)

  /** The gate after escalating if it is due, before any vote. */
  function Escalating(env: Env, p: Pause, now: int, targets: seq<string>, first: Status): Pause {
    if first == Escalated then Escalation(env, p, now, targets) else p
  }

  /** The gate after a vote came in. A voter whose vote is recorded already does not get a second one. */
  function Admit(env: Env, p: Pause, v: Vote): Pause {
    if Norm(env.fold, v.actor) in Voters(env, p.votes) then p else Cast(p, v)
  }

  /** What is left after a touch, given the status found first, after escalating, and after the vote. */
  function Settled(
    env: Env, p: Pause, now: int, targets: seq<string>, vote: Option<Vote>, first: Status, found: Status, again: Status)
    : (Pause, Report)
  {
    var p1 := Escalating(env, p, now, targets, first);
    if found != Pending || vote.None? then (p1, Report(first, found))
    else
      var p2 := Admit(env, p1, vote.value);
      (Escalating(env, p2, now, targets, again), Report(first, again))
  }

  /** What the gate answers once the vote is in. */
  function Again(env: Env, p1: Pause, now: int, vote: Option<Vote>, first: Status, found: Status): Status {
    if vote.Some? then Evaluate(env, Admit(env, p1, vote.value), now, first == Escalated).status else found
  }

  /** The gate and the report after a touch. */
  function AfterTouch(env: Env, p: Pause, now: int, targets: seq<string>, vote: Option<Vote>): (Pause, Report) {
    var first := Evaluate(env, p, now, false).status;
    var p1 := Escalating(env, p, now, targets, first);
    var found := Evaluate(env, p1, now, first == Escalated).status;
    Settled(env, p, now, targets, vote, first, found, Again(env, p1, now, vote, first, found))
  }

  function AfterLook(env: Env, p: Pause, look: Look): (Pause, Report) {
    match look
    case Touch(now, targets, vote) => AfterTouch(env, p, now, targets, vote)
    case Query(now) => var s := Evaluate(env, p, now, false).status; (p, Report(s, s))
  }

  function GateAfter(env: Env, p: Pause, looks: seq<Look>): Pause {
    if looks == [] then p else AfterLook(env, GateAfter(env, p, looks[..|looks| - 1]), looks[|looks| - 1]).0
  }

  /** What look `k` of a run reports. */
  function ReportAt(env: Env, p: Pause, looks: seq<Look>, k: nat): Report
    requires k < |looks|
  {
    AfterLook(env, GateAfter(env, p, looks[..k]), looks[k]).1
  }

  /** Written timestamps are never empty. */
  ghost predicate Writes(env: Env) {
    forall t {:trigger env.format(t)} :: env.format(t) != ""
  }

  /** The gate of a paused run. */
  class Gate {
    const env: Env
    var pause: Pause

    constructor (env: Env, pause: Pause)
      ensures this.env == env && this.pause == pause
    {
      this.env, this.pause := env, pause;
    }

    method ApplyEscalation(now: int, targets: seq<string>)
      modifies this`pause
      ensures pause == Escalation(env, old(pause), now, targets)
    {
      var labels := EligibleLabels(targets);
      pause := pause.(escalatedTo := targets);
      pause := pause.(escalatedAt := Some(env.format(now)));
      pause := pause.(eligibleActors := labels);
      pause := pause.(approverRoles := targets);
    }

    method TouchGate(now: int, targets: seq<string>, vote: Option<Vote>) returns (r: Report)
      modifies this`pause
      ensures (pause, r) == AfterTouch(env, old(pause), now, targets, vote)
    {
      var justEscalated := false;
      var outcome := EvaluateGate(env, pause, now, false);
      var first := outcome.status;
      if outcome.status == Escalated {
        ApplyEscalation(now, targets);
        justEscalated := true;
        outcome := EvaluateGate(env, pause, now, true);
      }
      if outcome.status != Pending || vote.None? { return Report(first, outcome.status); }
      var existing := FindVote(env, pause.votes, vote.value.actor);
      if existing.Some? {
        if existing.value.decision != vote.value.decision { return Report(first, outcome.status); }
      } else {
        pause := Cast(pause, vote.value);
      }
      outcome := EvaluateGate(env, pause, now, justEscalated);
      if outcome.status == Escalated { ApplyEscalation(now, targets); }
      return Report(first, outcome.status);
    }
  }

  /** The first vote recorded for an actor, None exactly when there is none. */
  method FindVote(env: Env, votes: seq<Vote>, actor: string) returns (found: Option<Vote>)
    ensures found.None? <==> Norm(env.fold, actor) !in Voters(env, votes)
    ensures found.Some? ==>
              exists k :: 0 <= k < |votes| && votes[k] == found.value
                          && Norm(env.fold, votes[k].actor) == Norm(env.fold, actor)
                          && Norm(env.fold, actor) !in Voters(env, votes[..k])
  {
    for k := 0 to |votes|
      invariant Norm(env.fold, actor) !in Voters(env, votes[..k])
    {
      if Norm(env.fold, votes[k].actor) == Norm(env.fold, actor) { return Some(votes[k]); }
      assert votes[..k] + [votes[k]] == votes[..k + 1];
      VotersSnoc(env, votes[..k], votes[k]);
    }
    assert votes[..|votes|] == votes;
    return None;
  }

  // ---------------------------------------------------------------- invariants of every run

  /** The branch that escalates after the vote is never taken. */
  lemma NoSecondEscalation(env: Env, p: Pause, now: int, targets: seq<string>, vote: Option<Vote>)
    ensures AfterTouch(env, p, now, targets, vote).1.final != Escalated
  {}

  /** The deadline and what it leads to never change, and an escalation is never forgotten. */
  ghost predicate Keeps(p: Pause, q: Pause) {
    && q.expiresAt == p.expiresAt && q.onExpire == p.onExpire
    && (Present(p.escalatedAt) ==> Present(q.escalatedAt))
    && p.votes <= q.votes
  }

  lemma SettledKeeps(
    env: Env, p: Pause, now: int, targets: seq<string>, vote: Option<Vote>, first: Status, found: Status, again: Status)
    requires Writes(env)
    ensures var (q, r) := Settled(env, p, now, targets, vote, first, found, again);
            Keeps(p, q) && r.first == first && (first == Escalated ==> Present(q.escalatedAt))
  {}

  lemma {:induction false} LookKeeps(env: Env, p: Pause, look: Look)
    requires Writes(env)
    ensures var (q, r) := AfterLook(env, p, look);
            Keeps(p, q) && (look.Touch? && r.first == Escalated ==> Present(q.escalatedAt))
  {
    if look.Touch? {
      var first := Evaluate(env, p, look.now, false).status;
      var p1 := Escalating(env, p, look.now, look.targets, first);
      var found := Evaluate(env, p1, look.now, first == Escalated).status;
      var again := Again(env, p1, look.now, look.vote, first, found);
      SettledKeeps(env, p, look.now, look.targets, look.vote, first, found, again);
    }
  }

  lemma {:induction false} RunKeeps(env: Env, p: Pause, looks: seq<Look>, k: nat)
    requires Writes(env) && k <= |looks|
    ensures Keeps(GateAfter(env, p, looks[..k]), GateAfter(env, p, looks))
    decreases |looks|
  {
    if k < |looks| {
      var before := looks[..|looks| - 1];
      RunKeeps(env, p, before, k);
      assert before[..k] == looks[..k];
      LookKeeps(env, GateAfter(env, p, before), looks[|looks| - 1]);
    } else {
      assert looks[..k] == looks;
    }
  }

  /** From look `i` to look `j` of one run. */
  lemma BetweenLooks(env: Env, p: Pause, looks: seq<Look>, i: nat, j: nat)
    requires Writes(env) && i < j < |looks|
    ensures Keeps(GateAfter(env, p, looks[..i]), GateAfter(env, p, looks[..j]))
    ensures Keeps(AfterLook(env, GateAfter(env, p, looks[..i]), looks[i]).0, GateAfter(env, p, looks[..j]))
  {
    assert looks[..i + 1][..i] == looks[..i] && looks[..j][..i + 1] == looks[..i + 1];
    RunKeeps(env, p, looks[..j], i + 1);
    RunKeeps(env, p, looks[..j], i);
    assert looks[..j][..i] == looks[..i];
  }

  /** What a gate that saw its deadline in a touch, or was escalated before, reports from then on. */
  lemma OverdueLook(env: Env, p: Pause, look: Look)
    requires DeadlinePassed(env, p, look.now) && ExpiryStatus(p) != Escalated
    ensures AfterLook(env, p, look) == (p, Report(ExpiryStatus(p), ExpiryStatus(p)))
  {}

  lemma TouchedAtDeadline(env: Env, p: Pause, look: Look)
    requires Writes(env) && look.Touch? && DeadlinePassed(env, p, look.now)
    ensures ExpiryStatus(AfterLook(env, p, look).0) != Escalated
  {
    LookKeeps(env, p, look);
    if ExpiryStatus(p) != Escalated { OverdueLook(env, p, look); }
  }

  lemma EscalatesOnlyFresh(env: Env, p: Pause, look: Look)
    requires look.Touch?
    ensures AfterLook(env, p, look).1.first == Escalated ==> !Present(p.escalatedAt)
  {
    var first := Evaluate(env, p, look.now, false).status;
    assert AfterLook(env, p, look).1.first == first;
  }

  /** At most one touch of a run finds the gate due for escalation. */
  lemma EscalatesAtMostOnce(env: Env, p: Pause, looks: seq<Look>, i: nat, j: nat)
    requires Writes(env) && i < j < |looks| && looks[i].Touch? && looks[j].Touch?
    ensures !(ReportAt(env, p, looks, i).first == ReportAt(env, p, looks, j).first == Escalated)
  {
    LookKeeps(env, GateAfter(env, p, looks[..i]), looks[i]);
    BetweenLooks(env, p, looks, i, j);
    EscalatesOnlyFresh(env, GateAfter(env, p, looks[..j]), looks[j]);
  }

  /** A gate past its deadline for good: it answers rejected or expired, and nothing changes it. */
  ghost predicate Over(env: Env, p: Pause, t: int) {
    DeadlinePassed(env, p, t) && ExpiryStatus(p) in {Rejected, Expired}
  }

  lemma OverIsFinal(env: Env, p: Pause, look: Look, t: int)
    requires Over(env, p, t) && t <= look.now
    ensures AfterLook(env, p, look) == (p, Report(ExpiryStatus(p), ExpiryStatus(p)))
  {
    OverdueLook(env, p, look);
  }

  lemma TouchEndsIt(env: Env, p: Pause, look: Look)
    requires Writes(env) && look.Touch? && DeadlinePassed(env, p, look.now)
    ensures Over(env, AfterLook(env, p, look).0, look.now)
  {
    LookKeeps(env, p, look);
    TouchedAtDeadline(env, p, look);
  }

  lemma KeptOver(env: Env, p: Pause, q: Pause, t: int)
    requires Over(env, p, t) && Keeps(p, q)
    ensures Over(env, q, t)
  {}

  /** The look came at or after the deadline the gate had then. */
  predicate SawDeadline(env: Env, p: Pause, looks: seq<Look>, k: nat)
    requires k < |looks|
  {
    DeadlinePassed(env, GateAfter(env, p, looks[..k]), looks[k].now)
  }

  lemma OverFrom(env: Env, p: Pause, looks: seq<Look>, i: nat, j: nat)
    requires Writes(env) && i < j < |looks| && looks[i].Touch?
    requires SawDeadline(env, p, looks, i)
    ensures Over(env, GateAfter(env, p, looks[..j]), looks[i].now)
  {
    var early := GateAfter(env, p, looks[..i]);
    TouchEndsIt(env, early, looks[i]);
    BetweenLooks(env, p, looks, i, j);
    KeptOver(env, AfterLook(env, early, looks[i]).0, GateAfter(env, p, looks[..j]), looks[i].now);
  }

  lemma GateAfterOne(env: Env, p: Pause, looks: seq<Look>, j: nat)
    requires j < |looks|
    ensures GateAfter(env, p, looks[..j + 1]) == AfterLook(env, GateAfter(env, p, looks[..j]), looks[j]).0
  {
    assert looks[..j + 1][..j] == looks[..j];
  }

  /**
   Once a touch has seen the deadline passed, every later look, with any votes and at any later time, reports rejected
   or expired: never pending, approved, or another escalation.
   */
  lemma NothingAfterDeadline(env: Env, p: Pause, looks: seq<Look>, i: nat, j: nat)
    requires Writes(env) && i < j < |looks| && looks[i].Touch? && looks[i].now <= looks[j].now
    requires SawDeadline(env, p, looks, i)
    ensures ReportAt(env, p, looks, j).first == ReportAt(env, p, looks, j).final
    ensures ReportAt(env, p, looks, j).final in {Rejected, Expired}
    ensures GateAfter(env, p, looks[..j + 1]) == GateAfter(env, p, looks[..j])
  {
    OverFrom(env, p, looks, i, j);
    OverIsFinal(env, GateAfter(env, p, looks[..j]), looks[j], looks[i].now);
    GateAfterOne(env, p, looks, j);
  }

  lemma QueryFindsIt(env: Env, p: Pause, now: int)
    requires DeadlinePassed(env, p, now)
    ensures AfterLook(env, p, Query(now)) == (p, Report(ExpiryStatus(p), ExpiryStatus(p)))
  {}

  lemma OverStaysTheSame(env: Env, p: Pause, q: Pause, t: int)
    requires Over(env, p, t) && Keeps(p, q)
    ensures ExpiryStatus(q) == ExpiryStatus(p)
  {}

  /**
   What a query that sees the deadline passed foretells. Rejected or expired is final: every later look reports the
   same. Escalated is not: it is what the next touch finds, which may then still be approved by the escalated voters.
   */
  lemma QueryAfterDeadline(env: Env, p: Pause, looks: seq<Look>, i: nat, j: nat)
    requires Writes(env) && i < j < |looks| && looks[i].Query? && looks[i].now <= looks[j].now
    requires SawDeadline(env, p, looks, i)
    ensures var said := ReportAt(env, p, looks, i).final;
            && (said == Escalated && j == i + 1 ==> ReportAt(env, p, looks, j).first == Escalated)
            && (said != Escalated ==>
                  said in {Rejected, Expired} && ReportAt(env, p, looks, j) == Report(said, said))
  {
    var early, late := GateAfter(env, p, looks[..i]), GateAfter(env, p, looks[..j]);
    QueryFindsIt(env, early, looks[i].now);
    BetweenLooks(env, p, looks, i, j);
    if ExpiryStatus(early) != Escalated {
      KeptOver(env, early, late, looks[i].now);
      OverStaysTheSame(env, early, late, looks[i].now);
      OverIsFinal(env, late, looks[j], looks[i].now);
    } else if j == i + 1 {
      GateAfterOne(env, p, looks, i);
      DueLook(env, early, looks[j]);
    }
  }

  lemma DueLook(env: Env, p: Pause, look: Look)
    requires DeadlinePassed(env, p, look.now) && ExpiryStatus(p) == Escalated
    ensures AfterLook(env, p, look).1.first == Escalated
  {}

  /** The touch that escalates counts the votes as if there were no deadline, once. */
  lemma EscalatingTouchStillCounts(env: Env, p: Pause, now: int, targets: seq<string>, vote: Option<Vote>)
    requires Writes(env) && DeadlinePassed(env, p, now) && OnExpire(p) == "escalate" && !Present(p.escalatedAt)
    ensures var (q, r) := AfterTouch(env, p, now, targets, vote);
            && r.first == Escalated && r.final == VoteStatus(env, q) && Present(q.escalatedAt)
            && q.approverRoles == targets && q.expiresAt == p.expiresAt
            && ExpiryStatus(q) == Expired
  {
    var p1 := Escalation(env, p, now, targets);
    assert Evaluate(env, p, now, false).status == ExpiryStatus(p) == Escalated;
    EscalatesInto(env, p, now, targets);
    StatusIgnoringDeadline(env, p1, now);
    if vote.Some? {
      AdmitOnlyVotes(env, p1, vote.value);
      StatusIgnoringDeadline(env, Admit(env, p1, vote.value), now);
    }
  }

  /** The gate an escalation leaves. */
  predicate EscalatedTo(p: Pause, q: Pause, targets: seq<string>) {
    && Present(q.escalatedAt) && q.approverRoles == targets && q.expiresAt == p.expiresAt
    && ExpiryStatus(q) == Expired
  }

  lemma EscalatesInto(env: Env, p: Pause, now: int, targets: seq<string>)
    requires Writes(env) && OnExpire(p) == "escalate"
    ensures EscalatedTo(p, Escalation(env, p, now, targets), targets)
  {}

  lemma AdmitOnlyVotes(env: Env, p: Pause, v: Vote)
    ensures Admit(env, p, v) == p.(votes := Admit(env, p, v).votes)
  {}

  lemma StatusIgnoringDeadline(env: Env, p: Pause, now: int)
    ensures Evaluate(env, p, now, true).status == VoteStatus(env, p) != Escalated
  {}

  // ---------------------------------------------------------------- one vote per voter

  lemma AdmitKeepsOneEach(env: Env, p: Pause, v: Vote)
    requires OnePerVoter(env, p.votes)
    ensures OnePerVoter(env, Admit(env, p, v).votes)
  {
    if Norm(env.fold, v.actor) !in Voters(env, p.votes) {
      forall i | 0 <= i < |p.votes| ensures Norm(env.fold, p.votes[i].actor) != Norm(env.fold, v.actor) {
        assert p.votes[i] in p.votes;
      }
    }
  }

  /** A touch leaves the votes alone or admits its own. */
  lemma TouchVotes(env: Env, p: Pause, now: int, targets: seq<string>, vote: Option<Vote>)
    ensures var p1 := Escalating(env, p, now, targets, Evaluate(env, p, now, false).status);
            var votes := AfterTouch(env, p, now, targets, vote).0.votes;
            p1.votes == p.votes && (votes != p.votes ==> vote.Some? && votes == Admit(env, p1, vote.value).votes)
  {}

  lemma LookKeepsOneEach(env: Env, p: Pause, look: Look)
    requires OnePerVoter(env, p.votes)
    ensures OnePerVoter(env, AfterLook(env, p, look).0.votes)
  {
    if look.Touch? {
      var p1 := Escalating(env, p, look.now, look.targets, Evaluate(env, p, look.now, false).status);
      TouchVotes(env, p, look.now, look.targets, look.vote);
      if look.vote.Some? { AdmitKeepsOneEach(env, p1, look.vote.value); }
    }
  }

  /** A gate that starts without repeated voters never records two votes by one voter. */
  lemma {:induction false} RunKeepsOneEach(env: Env, p: Pause, looks: seq<Look>)
    requires OnePerVoter(env, p.votes)
    ensures OnePerVoter(env, GateAfter(env, p, looks).votes)
  {
    if looks != [] {
      RunKeepsOneEach(env, p, looks[..|looks| - 1]);
      LookKeepsOneEach(env, GateAfter(env, p, looks[..|looks| - 1]), looks[|looks| - 1]);
    }
  }

  /** So at every moment of its life its outcome is the one that any other order of the recorded votes would give. */
  lemma OrderNeverMattersInRun(env: Env, p: Pause, looks: seq<Look>, now: int, ignoreExpiry: bool)
    requires OnePerVoter(env, p.votes)
    ensures OrderFree(env, GateAfter(env, p, looks), now, ignoreExpiry)
  {
    var q := GateAfter(env, p, looks);
    RunKeepsOneEach(env, p, looks);
    forall v, w | v in q.votes && w in q.votes && Norm(env.fold, v.actor) == Norm(env.fold, w.actor) ensures v == w {
      var i :| 0 <= i < |q.votes| && q.votes[i] == v;
      var j :| 0 <= j < |q.votes| && q.votes[j] == w;
      assert i == j;
    }
    forall votes | multiset(votes) == multiset(q.votes)
      ensures Evaluate(env, q.(votes := votes), now, ignoreExpiry) == Evaluate(env, q, now, ignoreExpiry)
    {
      OrderDoesNotMatter(env, q, votes, now, ignoreExpiry);
    }
  }

  // ---------------------------------------------------------------- what a touch does

  /** Somebody of that name, trimmed and case-folded, has a vote recorded. */
  predicate HasVoted(fold: Fold, votes: seq<Vote>, actor: string) {
    exists k :: 0 <= k < |votes| && fold(Strip(votes[k].actor)) == fold(Strip(actor))
  }

  lemma HasVotedMeans(env: Env, votes: seq<Vote>, actor: string)
    ensures Norm(env.fold, actor) in Voters(env, votes) <==> HasVoted(env.fold, votes, actor)
  {
    if k :| 0 <= k < |votes| && env.fold(Strip(votes[k].actor)) == env.fold(Strip(actor)) { assert votes[k] in votes; }
  }

  /** The vote of this touch is recorded: one came, and its voter had none yet. */
  predicate Records(env: Env, p: Pause, vote: Option<Vote>) {
    vote.Some? && !HasVoted(env.fold, p.votes, vote.value.actor)
  }

  /** The gate with the vote recorded. */
  function WithVote(p: Pause, vote: Option<Vote>): Pause {
    if vote.Some? then p.(votes := p.votes + [vote.value]) else p
  }

  /** The gate escalated to these roles: who may vote and who has to, and when that was; nothing else. */
  predicate EscalatedBy(env: Env, p: Pause, q: Pause, now: int, targets: seq<string>) {
    && q == p.(escalatedTo := targets, escalatedAt := Some(env.format(now)), approverRoles := targets,
               eligibleActors := q.eligibleActors)
    && (targets == [] ==> q.eligibleActors == ["*"])
    && (targets != [] ==>
          |q.eligibleActors| == |targets|
          && forall k :: 0 <= k < |targets| ==> q.eligibleActors[k] == "role:" + targets[k])
  }

  /** From a gate found pending on: the vote is recorded if it is its voter's first, and the new answer reported. */
  ghost predicate VoteTaken(
    env: Env, p: Pause, now: int, ignoreExpiry: bool, vote: Option<Vote>, q: Pause, final: Status)
  {
    && q == (if Records(env, p, vote) then WithVote(p, vote) else p)
    && final == Evaluate(env, q, now, ignoreExpiry).status
  }

  lemma {:induction false} LabelsAre(roles: seq<string>)
    ensures |RoleLabels(roles)| == |roles|
    ensures forall k :: 0 <= k < |roles| ==> RoleLabels(roles)[k] == "role:" + roles[k]
  {
    if roles != [] { LabelsAre(roles[1..]); }
  }

  lemma EscalationMeans(env: Env, p: Pause, now: int, targets: seq<string>)
    ensures EscalatedBy(env, p, Escalation(env, p, now, targets), now, targets)
  {
    LabelsAre(targets);
  }

  /**
   One touch. A decided gate is left alone and reported. A pending one takes the vote, if it is its voter's first. One
   due for escalation is escalated, and if it is then pending but for its deadline, takes the vote in the same way.
   */
  lemma TouchMeans(env: Env, p: Pause, now: int, targets: seq<string>, vote: Option<Vote>)
    ensures var (q, r) := AfterTouch(env, p, now, targets, vote);
            var found := Evaluate(env, p, now, false).status;
            && r.first == found
            && (found != Pending && found != Escalated ==> q == p && r.final == found)
            && (found == Pending ==> VoteTaken(env, p, now, false, vote, q, r.final))
            && (found == Escalated ==>
                  exists e ::
                    && EscalatedBy(env, p, e, now, targets)
                    && if Evaluate(env, e, now, true).status == Pending
                       then VoteTaken(env, e, now, true, vote, q, r.final)
                       else q == e && r.final == Evaluate(env, e, now, true).status)
  {
    var e := Escalation(env, p, now, targets);
    EscalationMeans(env, p, now, targets);
    if vote.Some? {
      HasVotedMeans(env, p.votes, vote.value.actor);
    }
    if Evaluate(env, p, now, false).status == Escalated {
      EscalatedTouchMeans(env, p, now, targets, vote);
      assert EscalatedBy(env, p, e, now, targets);
    }
  }

  lemma EscalatedTouchMeans(env: Env, p: Pause, now: int, targets: seq<string>, vote: Option<Vote>)
    requires Evaluate(env, p, now, false).status == Escalated
    ensures var (q, r) := AfterTouch(env, p, now, targets, vote);
            var e := Escalation(env, p, now, targets);
            if Evaluate(env, e, now, true).status == Pending then VoteTaken(env, e, now, true, vote, q, r.final)
            else q == e && r.final == Evaluate(env, e, now, true).status
  {
    var e := Escalation(env, p, now, targets);
    if vote.Some? {
      HasVotedMeans(env, e.votes, vote.value.actor);
      StatusIgnoringDeadline(env, Admit(env, e, vote.value), now);
    }
  }
}
