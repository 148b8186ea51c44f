/** A paused approval gate: votes, quorum, roles, and a deadline that is looked at only when the gate is touched. */
module Gates {
  import opened Basics
  import opened Texts

  /** Case folding of actor names, and reading and writing of timestamps. */
  datatype Env = Env(fold: Fold, parse: string -> Option<int>, format: int -> string)

  datatype Vote = Vote(
    actor: string, decision: string, at: string, role: Option<string>, reason: Option<string>,
    signatureStatus: string, delegatedFrom: Option<string>, override: bool)

  datatype Pause = Pause(
    required: int, votes: seq<Vote>, distinct: bool, denyActor: seq<string>, approverRoles: seq<string>,
    require: string, eligibleActors: seq<string>, expiresAt: Option<string>, onExpire: Option<string>,
    escalatedTo: seq<string>, pausedAt: Option<string>, rejectShortCircuit: bool, requireReason: bool,
    recommendation: Option<string>, clockSource: string, expired: bool, escalatedAt: Option<string>)

  datatype Status = Pending | Approved | Rejected | Expired | Escalated

  datatype Outcome = Outcome(
    status: Status, reason: Option<string>, elapsed: Option<int>, expiresAt: Option<string>, clockSource: string)

  function ParseClock(env: Env, s: Option<string>): Option<int> {
    if Present(s) then env.parse(s.value) else None
  }

  // ---------------------------------------------------------------- counting votes

  function WithDecision(votes: seq<Vote>, decision: string): seq<Vote> {
    if votes == [] then [] else
    var rest, v := WithDecision(votes[..|votes| - 1], decision), votes[|votes| - 1];
    if v.decision == decision then rest + [v] else rest
  }

  /** The normalised names of those who cast the votes. */
  function Voters(env: Env, votes: seq<Vote>): set<string> {
    set v | v in votes :: Norm(env.fold, v.actor)
  }

  /** The first vote of every voter. */
  function FirstVotes(env: Env, votes: seq<Vote>): seq<Vote> {
    if votes == [] then [] else
    var before, v := votes[..|votes| - 1], votes[|votes| - 1];
    if Norm(env.fold, v.actor) in Voters(env, before) then FirstVotes(env, before) else FirstVotes(env, before) + [v]
  }

  /** The role a vote speaks for: the one recorded on it, else the voter's own name. */
  function Label(env: Env, v: Vote): string {
    Norm(env.fold, if Present(v.role) then v.role.value else v.actor)
  }

  function Labels(env: Env, votes: seq<Vote>): set<string> {
    set v | v in votes :: Label(env, v)
  }

  function Needed(env: Env, roles: seq<string>): set<string> {
    set r | r in roles :: Norm(env.fold, r)
  }

  lemma {:induction false} VotersSnoc(env: Env, votes: seq<Vote>, v: Vote)
    ensures Voters(env, votes + [v]) == Voters(env, votes) + {Norm(env.fold, v.actor)}
    ensures Labels(env, votes + [v]) == Labels(env, votes) + {Label(env, v)}
  {
    assert forall w :: w in votes + [v] <==> w in votes || w == v;
    assert v in votes + [v];
  }

  /** Keeping first votes keeps one vote for each distinct voter. */
  lemma {:induction false} FirstVotesCount(env: Env, votes: seq<Vote>)
    ensures |FirstVotes(env, votes)| == |Voters(env, votes)|
    ensures Voters(env, FirstVotes(env, votes)) == Voters(env, votes)
  {
    if votes != [] {
      var before, v := votes[..|votes| - 1], votes[|votes| - 1];
      FirstVotesCount(env, before);
      assert before + [v] == votes;
      VotersSnoc(env, before, v);
      VotersSnoc(env, FirstVotes(env, before), v);
      Growth(Voters(env, before), Norm(env.fold, v.actor));
    }
  }

  lemma Growth<T>(s: set<T>, x: T)
    ensures |s + {x}| == |s| + if x in s then 0 else 1
  {
    if x in s { assert s + {x} == s; }
  }

  /** The approving votes that count towards the quorum. */
  function Counted(env: Env, p: Pause): seq<Vote> {
    var approves := WithDecision(p.votes, "approve");
    if p.distinct then FirstVotes(env, approves) else approves
  }

  predicate AllRolesWanted(p: Pause) {
    p.require == "all" && p.approverRoles != []
  }

  predicate RolesMet(env: Env, p: Pause) {
    AllRolesWanted(p) ==> Needed(env, p.approverRoles) <= Labels(env, Counted(env, p))
  }

  predicate QuorumMet(env: Env, p: Pause) {
    |Counted(env, p)| >= p.required
  }

  // ---------------------------------------------------------------- evaluation

  function OnExpire(p: Pause): string {
    var s := Lower(Strip(if Present(p.onExpire) then p.onExpire.value else "reject"));
    if s == "reject" || s == "escalate" || s == "fail" then s else "reject"
  }

  predicate DeadlinePassed(env: Env, p: Pause, now: int) {
    var e := ParseClock(env, p.expiresAt);
    e.Some? && now >= e.value
  }

  function Elapsed(env: Env, p: Pause, now: int): Option<int> {
    var since := ParseClock(env, p.pausedAt);
    if since.None? then None else Some(if now > since.value then now - since.value else 0)
  }

  /** What an expired gate answers. */
  function ExpiryStatus(p: Pause): Status {
    if OnExpire(p) == "escalate" then (if Present(p.escalatedAt) then Expired else Escalated)
    else if OnExpire(p) == "fail" then Expired
    else Rejected
  }

  /** What the votes alone answer. */
  function VoteStatus(env: Env, p: Pause): Status {
    var rejected := WithDecision(p.votes, "reject") != [];
    if rejected && p.rejectShortCircuit then Rejected
    else if RolesMet(env, p) && QuorumMet(env, p) then Approved
    else if rejected && (!RolesMet(env, p) || |p.votes| >= p.required) then Rejected
    else Pending
  }

  function Evaluate(env: Env, p: Pause, now: int, ignoreExpiry: bool): Outcome {
    var due := !ignoreExpiry && DeadlinePassed(env, p, now);
    var status := if due then ExpiryStatus(p) else VoteStatus(env, p);
    var reason := if due then Some("expired") else if status.Rejected? then Some("rejected") else None;
    Outcome(status, reason, Elapsed(env, p, now), p.expiresAt, p.clockSource)
  }

  /** The votes a gate holds after one more was cast. */
  function Cast(p: Pause, v: Vote): Pause {
    p.(votes := p.votes + [v])
  }

  /** The one-shot rewrite of who may vote. The deadline stays. */
  function Escalation(env: Env, p: Pause, now: int, targets: seq<string>): Pause {
    p.(escalatedTo := targets, escalatedAt := Some(env.format(now)), eligibleActors := EligibleLabels(targets),
       approverRoles := targets)
  }

  function EligibleLabels(roles: seq<string>): seq<string> {
    if roles == [] then ["*"] else RoleLabels(roles)
  }

  function RoleLabels(roles: seq<string>): seq<string> {
    if roles == [] then [] else ["role:" + roles[0]] + RoleLabels(roles[1..])
  }

  method Deduplicate(env: Env, votes: seq<Vote>) returns (unique: seq<Vote>)
    ensures unique == FirstVotes(env, votes) && |unique| == |Voters(env, votes)|
  {
    var seen: set<string> := {};
    unique := [];
    for k := 0 to |votes|
      invariant seen == Voters(env, votes[..k]) && unique == FirstVotes(env, votes[..k])
    {
      assert votes[..k + 1][..k] == votes[..k] && votes[..k] + [votes[k]] == votes[..k + 1];
      VotersSnoc(env, votes[..k], votes[k]);
      var key := Norm(env.fold, votes[k].actor);
      if key in seen { continue; }
      seen := seen + {key};
      unique := unique + [votes[k]];
    }
    assert votes[..|votes|] == votes;
    FirstVotesCount(env, votes);
  }

  /** The evaluation as the program runs it. */
  method EvaluateGate(env: Env, p: Pause, now: int, ignoreExpiry: bool) returns (o: Outcome)
    ensures o == Evaluate(env, p, now, ignoreExpiry)
  {
    var elapsed := Elapsed(env, p, now);
    var expiresAt := ParseClock(env, p.expiresAt);
    if !ignoreExpiry && expiresAt.Some? && now >= expiresAt.value {
      var onExpire := OnExpire(p);
      if onExpire == "escalate" && !Present(p.escalatedAt) {
        return Outcome(Escalated, Some("expired"), elapsed, p.expiresAt, p.clockSource);
      }
      if onExpire == "fail" || (onExpire == "escalate" && Present(p.escalatedAt)) {
        return Outcome(Expired, Some("expired"), elapsed, p.expiresAt, p.clockSource);
      }
      return Outcome(Rejected, Some("expired"), elapsed, p.expiresAt, p.clockSource);
    }
    var rejects := WithDecision(p.votes, "reject");
    if rejects != [] && p.rejectShortCircuit {
      return Outcome(Rejected, Some("rejected"), elapsed, p.expiresAt, p.clockSource);
    }
    var approves := WithDecision(p.votes, "approve");
    if p.distinct { approves := Deduplicate(env, approves); }
    if p.require == "all" && p.approverRoles != [] {
      var have, need := Labels(env, approves), Needed(env, p.approverRoles);
      if !(need <= have) {
        if rejects != [] && !p.rejectShortCircuit {
          return Outcome(Rejected, Some("rejected"), elapsed, p.expiresAt, p.clockSource);
        }
        return Outcome(Pending, None, elapsed, p.expiresAt, p.clockSource);
      }
    }
    if |approves| >= p.required {
      return Outcome(Approved, None, elapsed, p.expiresAt, p.clockSource);
    }
    if rejects != [] && !p.rejectShortCircuit && |p.votes| >= p.required {
      return Outcome(Rejected, Some("rejected"), elapsed, p.expiresAt, p.clockSource);
    }
    return Outcome(Pending, None, elapsed, p.expiresAt, p.clockSource);
  }

  // ---------------------------------------------------------------- one more vote

  lemma {:induction false} CastCounts(env: Env, p: Pause, v: Vote)
    ensures Counted(env, p) <= Counted(env, Cast(p, v))
    ensures v.decision != "approve" ==> Counted(env, Cast(p, v)) == Counted(env, p)
    ensures v.decision == "approve" && p.distinct
            && Norm(env.fold, v.actor) in Voters(env, WithDecision(p.votes, "approve")) ==>
              Counted(env, Cast(p, v)) == Counted(env, p)
    ensures v.decision != "reject" ==> WithDecision(Cast(p, v).votes, "reject") == WithDecision(p.votes, "reject")
  {
    var votes := Cast(p, v).votes;
    assert votes[..|votes| - 1] == p.votes;
    var a := WithDecision(p.votes, "approve");
    assert (a + [v])[..|a|] == a;
  }

  /**
   A gate that is approved stays approved under any later vote that does not reject, and under any later vote at all
   when a single rejection does not decide.
   */
  lemma ApprovalSurvives(env: Env, p: Pause, v: Vote, now: int, ignoreExpiry: bool)
    requires Evaluate(env, p, now, ignoreExpiry).status == Approved
    requires v.decision != "reject" || !p.rejectShortCircuit
    ensures Evaluate(env, Cast(p, v), now, ignoreExpiry) == Evaluate(env, p, now, ignoreExpiry)
  {
    CastCounts(env, p, v);
    var before, after := Counted(env, p), Counted(env, Cast(p, v));
    assert Labels(env, before) <= Labels(env, after) by {
      forall w | w in before ensures w in after {
        var k :| 0 <= k < |before| && before[k] == w;
        assert after[k] == w;
      }
    }
  }

  /**
   A second approval by the same actor changes the status in one case only: enough votes have come in to make an
   undecided rejection final.
   */
  lemma RepeatedApprovalIff(env: Env, p: Pause, v: Vote, now: int, ignoreExpiry: bool)
    requires p.distinct && v.decision == "approve"
    requires Norm(env.fold, v.actor) in Voters(env, WithDecision(p.votes, "approve"))
    ensures Evaluate(env, Cast(p, v), now, ignoreExpiry).status == Evaluate(env, p, now, ignoreExpiry).status <==>
            !(Evaluate(env, p, now, ignoreExpiry).status == Pending
              && WithDecision(p.votes, "reject") != [] && |p.votes| + 1 == p.required)
  {
    CastCounts(env, p, v);
    SameCountedStatusIff(env, p, Cast(p, v));
    OutcomesDiffer(env, p, Cast(p, v), now, ignoreExpiry);
  }

  lemma ApprovalThenRejection(yes: Vote, no: Vote)
    requires yes.decision == "approve" && no.decision == "reject"
    ensures WithDecision([yes, no], "approve") == [yes] && WithDecision([yes, no], "reject") == [no]
  {
    assert [yes, no][..1] == [yes] && [yes][..0] == [];
    assert WithDecision([yes], "approve") == [yes] && WithDecision([yes], "reject") == [];
  }

  lemma OneFirstVote(env: Env, v: Vote)
    ensures FirstVotes(env, [v]) == [v] && Norm(env.fold, v.actor) in Voters(env, [v])
  {
    assert [v][..0] == [] && v in [v];
  }

  /** Short of the quorum, a rejection that does not decide alone decides with the votes required. */
  lemma ShortOfQuorum(env: Env, p: Pause)
    requires !p.rejectShortCircuit && !AllRolesWanted(p) && !QuorumMet(env, p) && WithDecision(p.votes, "reject") != []
    ensures VoteStatus(env, p) == if |p.votes| >= p.required then Rejected else Pending
  {}

  /** Three approvals wanted, one approval, one rejection: a second approval by the same actor makes it rejected. */
  lemma RepeatedApprovalCanReject(env: Env, p: Pause, yes: Vote, no: Vote, now: int)
    requires p.distinct && !p.rejectShortCircuit && p.required == 3 && p.require == "any"
    requires yes.decision == "approve" && no.decision == "reject"
    ensures var q := p.(votes := [yes, no]);
            && Evaluate(env, q, now, true).status == Pending
            && Evaluate(env, Cast(q, yes), now, true).status == Rejected
  {
    var q := p.(votes := [yes, no]);
    ApprovalThenRejection(yes, no);
    OneFirstVote(env, yes);
    CastCounts(env, q, yes);
    ShortOfQuorum(env, q);
    ShortOfQuorum(env, Cast(q, yes));
    OutcomesDiffer(env, q, Cast(q, yes), now, true);
  }

  /** One vote more, with the same votes counted and the same rejections. */
  lemma SameCountedStatusIff(env: Env, p: Pause, q: Pause)
    requires Counted(env, q) == Counted(env, p) && WithDecision(q.votes, "reject") == WithDecision(p.votes, "reject")
    requires q == p.(votes := q.votes) && |q.votes| == |p.votes| + 1
    ensures VoteStatus(env, q) == VoteStatus(env, p) <==>
            !(VoteStatus(env, p) == Pending && WithDecision(p.votes, "reject") != [] && |p.votes| + 1 == p.required)
  {}

  lemma OutcomesDiffer(env: Env, p: Pause, q: Pause, now: int, ignoreExpiry: bool)
    requires q == p.(votes := q.votes)
    ensures var due := !ignoreExpiry && DeadlinePassed(env, p, now);
            && (due ==>
                  Evaluate(env, q, now, ignoreExpiry).status == Evaluate(env, p, now, ignoreExpiry).status != Pending)
            && (!due ==> Evaluate(env, p, now, ignoreExpiry).status == VoteStatus(env, p)
                         && Evaluate(env, q, now, ignoreExpiry).status == VoteStatus(env, q))
  {}
}
