/** What a gate answers, told from its votes, roles and deadline alone. */
module GateVerdicts {
  import opened Basics
  import opened Texts
  import opened Gates

  // ---------------------------------------------------------------- the votes

  /** Those who approved, by their trimmed and case-folded names. */
  function Approvers(fold: Fold, votes: seq<Vote>): set<string> {
    set v | v in votes && v.decision == "approve" :: fold(Strip(v.actor))
  }

  /** Where the approving votes are. */
  function ApprovalsAt(votes: seq<Vote>): set<int> {
    set k | 0 <= k < |votes| && votes[k].decision == "approve"
  }

  predicate ApprovesAt(votes: seq<Vote>, k: int) {
    0 <= k < |votes| && votes[k].decision == "approve"
  }

  /** Vote `k` is its voter's first approval. */
  ghost predicate FirstApproval(fold: Fold, votes: seq<Vote>, k: int) {
    && ApprovesAt(votes, k)
    && forall j :: j < k && ApprovesAt(votes, j) ==> fold(Strip(votes[j].actor)) != fold(Strip(votes[k].actor))
  }

  /** Vote `k` counts: it approves, and when actors have to be distinct it is its voter's first approval. */
  ghost predicate Counts(fold: Fold, p: Pause, k: int) {
    if p.distinct then FirstApproval(fold, p.votes, k) else ApprovesAt(p.votes, k)
  }

  /** The vote speaks for the role: the one recorded on it, or else its voter's own name. */
  predicate SpeaksFor(fold: Fold, v: Vote, role: string) {
    if v.role.Some? && v.role.value != "" then fold(Strip(v.role.value)) == fold(Strip(role))
    else fold(Strip(v.actor)) == fold(Strip(role))
  }

  /** Every declared role has a counting vote that speaks for it, if all roles are wanted. */
  ghost predicate RolesSpokenFor(fold: Fold, p: Pause) {
    p.require == "all" ==>
      forall role :: role in p.approverRoles ==>
        exists k :: Counts(fold, p, k) && SpeaksFor(fold, p.votes[k], role)
  }

  /** Enough approvals: of different actors if they have to be distinct. */
  predicate Enough(fold: Fold, p: Pause) {
    if p.distinct then |Approvers(fold, p.votes)| >= p.required else |ApprovalsAt(p.votes)| >= p.required
  }

  predicate SomeRejection(votes: seq<Vote>) {
    exists k :: 0 <= k < |votes| && votes[k].decision == "reject"
  }

  lemma {:induction false} WithDecisionHas(votes: seq<Vote>, decision: string)
    ensures forall v :: v in WithDecision(votes, decision) <==> v in votes && v.decision == decision
  {
    if votes != [] {
      var init, v := votes[..|votes| - 1], votes[|votes| - 1];
      WithDecisionHas(init, decision);
      assert forall w :: w in votes <==> w in init || w == v;
    }
  }

  lemma {:induction false} ApprovalsCount(votes: seq<Vote>)
    ensures |WithDecision(votes, "approve")| == |ApprovalsAt(votes)|
  {
    if votes != [] {
      var init, v := votes[..|votes| - 1], votes[|votes| - 1];
      ApprovalsCount(init);
      assert ApprovalsAt(votes) == ApprovalsAt(init) + if v.decision == "approve" then {|init|} else {};
    }
  }

  lemma RejectionsAre(votes: seq<Vote>)
    ensures WithDecision(votes, "reject") != [] <==> SomeRejection(votes)
  {
    WithDecisionHas(votes, "reject");
    var rejects := WithDecision(votes, "reject");
    if rejects != [] { assert rejects[0] in votes; }
    if k :| 0 <= k < |votes| && votes[k].decision == "reject" { assert votes[k] in rejects; }
  }

  lemma ApproversAre(env: Env, votes: seq<Vote>)
    ensures Voters(env, WithDecision(votes, "approve")) == Approvers(env.fold, votes)
  {
    WithDecisionHas(votes, "approve");
  }

  /** The quorum counts actors or approvals. */
  lemma QuorumIs(env: Env, p: Pause)
    ensures QuorumMet(env, p) <==> Enough(env.fold, p)
  {
    ApprovalsCount(p.votes);
    FirstVotesCount(env, WithDecision(p.votes, "approve"));
    ApproversAre(env, p.votes);
  }

  /** The vote is somebody's first approval. */
  ghost predicate IsFirst(fold: Fold, votes: seq<Vote>, v: Vote) {
    exists k :: FirstApproval(fold, votes, k) && votes[k] == v
  }

  lemma {:induction false} FirstVotesAre(env: Env, votes: seq<Vote>, v: Vote)
    ensures v in FirstVotes(env, WithDecision(votes, "approve")) <==> IsFirst(env.fold, votes, v)
  {
    if votes != [] {
      var init, last := votes[..|votes| - 1], votes[|votes| - 1];
      assert init + [last] == votes;
      FirstVotesAre(env, init, v);
      FirstVotesNext(env, init, last);
      FirstApprovalNext(env.fold, init, last, v);
    }
  }

  /** The last vote is its voter's first approval. */
  predicate NewApproval(fold: Fold, votes: seq<Vote>, v: Vote) {
    v.decision == "approve" && fold(Strip(v.actor)) !in Approvers(fold, votes)
  }

  lemma FirstVotesNext(env: Env, votes: seq<Vote>, last: Vote)
    ensures FirstVotes(env, WithDecision(votes + [last], "approve")) ==
            FirstVotes(env, WithDecision(votes, "approve")) + if NewApproval(env.fold, votes, last) then [last] else []
  {
    ApproversAre(env, votes);
    assert (votes + [last])[..|votes|] == votes;
    var a := WithDecision(votes, "approve");
    assert (a + [last])[..|a|] == a;
  }

  lemma LastIsNewIff(fold: Fold, votes: seq<Vote>, last: Vote)
    ensures FirstApproval(fold, votes + [last], |votes|) <==> NewApproval(fold, votes, last)
  {
    var longer, name := votes + [last], fold(Strip(last.actor));
    if name in Approvers(fold, votes) {
      var v :| v in votes && v.decision == "approve" && fold(Strip(v.actor)) == name;
      var j :| 0 <= j < |votes| && votes[j] == v;
      assert longer[j] == v && ApprovesAt(longer, j);
    }
    if last.decision == "approve" && !FirstApproval(fold, longer, |votes|) {
      var j :| j < |votes| && ApprovesAt(longer, j) && fold(Strip(longer[j].actor)) == name;
      assert votes[j] in votes;
    }
  }

  lemma FirstApprovalNext(fold: Fold, votes: seq<Vote>, last: Vote, v: Vote)
    ensures IsFirst(fold, votes + [last], v) <==>
            IsFirst(fold, votes, v) || (v == last && NewApproval(fold, votes, last))
  {
    var longer := votes + [last];
    assert forall k :: 0 <= k < |votes| ==> longer[k] == votes[k];
    assert forall j :: ApprovesAt(votes, j) <==> j < |votes| && ApprovesAt(longer, j);
    forall k | 0 <= k < |votes| ensures FirstApproval(fold, longer, k) <==> FirstApproval(fold, votes, k) {}
    LastIsNewIff(fold, votes, last);
  }

  /** Roles are met exactly when they are spoken for. */
  lemma RolesAre(env: Env, p: Pause)
    ensures RolesMet(env, p) <==> RolesSpokenFor(env.fold, p)
  {
    CountedAre(env, p);
    if RolesMet(env, p) && p.require == "all" {
      forall role | role in p.approverRoles
        ensures exists k :: Counts(env.fold, p, k) && SpeaksFor(env.fold, p.votes[k], role)
      {
        assert Norm(env.fold, role) in Needed(env, p.approverRoles);
        var v :| v in Counted(env, p) && Label(env, v) == Norm(env.fold, role);
        var k :| Counts(env.fold, p, k) && p.votes[k] == v;
        assert SpeaksFor(env.fold, p.votes[k], role);
      }
    }
    if RolesSpokenFor(env.fold, p) && AllRolesWanted(p) {
      forall need | need in Needed(env, p.approverRoles) ensures need in Labels(env, Counted(env, p)) {
        var role :| role in p.approverRoles && Norm(env.fold, role) == need;
        var k :| Counts(env.fold, p, k) && SpeaksFor(env.fold, p.votes[k], role);
        assert p.votes[k] in Counted(env, p);
      }
    }
  }

  lemma CountedAre(env: Env, p: Pause)
    ensures forall v :: v in Counted(env, p) <==> exists k :: Counts(env.fold, p, k) && p.votes[k] == v
  {
    WithDecisionHas(p.votes, "approve");
    forall v ensures v in Counted(env, p) <==> exists k :: Counts(env.fold, p, k) && p.votes[k] == v {
      if p.distinct {
        FirstVotesAre(env, p.votes, v);
        assert forall k :: FirstApproval(env.fold, p.votes, k) == Counts(env.fold, p, k);
      } else if v in Counted(env, p) {
        var k :| 0 <= k < |p.votes| && p.votes[k] == v;
        assert ApprovesAt(p.votes, k);
      }
    }
  }

  // ---------------------------------------------------------------- the answer

  /** The gate is overdue, and its deadline is looked at. */
  predicate Due(env: Env, p: Pause, now: int, ignoreExpiry: bool) {
    && !ignoreExpiry && p.expiresAt.Some? && p.expiresAt.value != ""
    && env.parse(p.expiresAt.value).Some? && now >= env.parse(p.expiresAt.value).value
  }

  /** What the gate says about expiry, `reject` unless it says anything. */
  function SaidOnExpiry(p: Pause): string {
    Lower(Strip(if p.onExpire.Some? && p.onExpire.value != "" then p.onExpire.value else "reject"))
  }

  /** From the deadline on: escalated once, expired afterwards or when told to fail, and otherwise rejected. */
  lemma OverdueMeans(env: Env, p: Pause, now: int)
    requires Due(env, p, now, false)
    ensures var o, escalated := Evaluate(env, p, now, false), p.escalatedAt.Some? && p.escalatedAt.value != "";
            && (o.status == Escalated <==> SaidOnExpiry(p) == "escalate" && !escalated)
            && (o.status == Expired <==> SaidOnExpiry(p) == "fail" || (SaidOnExpiry(p) == "escalate" && escalated))
            && (o.status == Rejected <==> SaidOnExpiry(p) != "fail" && SaidOnExpiry(p) != "escalate")
            && o.reason == Some("expired")
  {}

  /** A gate that is not due: approved, rejected or pending, by its votes. */
  lemma VerdictMeans(env: Env, p: Pause, now: int, ignoreExpiry: bool)
    requires !Due(env, p, now, ignoreExpiry)
    ensures var o, rejection := Evaluate(env, p, now, ignoreExpiry), SomeRejection(p.votes);
            && (o.status == Approved <==>
                  !(rejection && p.rejectShortCircuit) && RolesSpokenFor(env.fold, p) && Enough(env.fold, p))
            && (o.status == Rejected <==>
                  && rejection
                  && (p.rejectShortCircuit || !RolesSpokenFor(env.fold, p)
                      || (!Enough(env.fold, p) && |p.votes| >= p.required)))
            && (o.status == Pending <==> o.status != Approved && o.status != Rejected)
            && o.reason == if o.status == Rejected then Some("rejected") else None
  {
    RejectionsAre(p.votes);
    QuorumIs(env, p);
    RolesAre(env, p);
  }

  /** What an answer carries besides its status: how long the gate has waited, its deadline, and whose clock it is. */
  lemma AnswerCarries(env: Env, p: Pause, now: int, ignoreExpiry: bool)
    ensures var o := Evaluate(env, p, now, ignoreExpiry);
            && o.expiresAt == p.expiresAt && o.clockSource == p.clockSource
            && (o.elapsed.Some? <==>
                  p.pausedAt.Some? && p.pausedAt.value != "" && env.parse(p.pausedAt.value).Some?)
            && (o.elapsed.Some? ==> o.elapsed.value == Max(0, now - env.parse(p.pausedAt.value).value))
  {}
}
