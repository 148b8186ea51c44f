/** When the order in which votes are recorded matters for the outcome of a gate, and when it does not. */
module VoteOrder {
  import opened Basics
  import opened Texts
  import opened Gates

  // ---------------------------------------------------------------- the same votes in another order

  lemma {:induction false} DecisionsAreASubset(votes: seq<Vote>, decision: string)
    ensures forall v ::
              multiset(WithDecision(votes, decision))[v] == if v.decision == decision then multiset(votes)[v] else 0
  {
    if votes != [] {
      var before, v := votes[..|votes| - 1], votes[|votes| - 1];
      DecisionsAreASubset(before, decision);
      assert votes == before + [v];
    }
  }

  lemma SameVotesSameDecisions(a: seq<Vote>, b: seq<Vote>, decision: string)
    requires multiset(a) == multiset(b)
    ensures multiset(WithDecision(a, decision)) == multiset(WithDecision(b, decision))
    ensures |WithDecision(a, decision)| == |WithDecision(b, decision)|
  {
    DecisionsAreASubset(a, decision);
    DecisionsAreASubset(b, decision);
    assert |multiset(WithDecision(a, decision))| == |multiset(WithDecision(b, decision))|;
  }

  lemma SameMembers(a: seq<Vote>, b: seq<Vote>)
    requires multiset(a) == multiset(b)
    ensures forall v :: v in a <==> v in b
  {
    forall v ensures v in a <==> v in b {
      assert v in a <==> v in multiset(a);
      assert v in b <==> v in multiset(b);
    }
  }

  lemma SameVotesSameSets(env: Env, a: seq<Vote>, b: seq<Vote>)
    requires multiset(a) == multiset(b)
    ensures Voters(env, a) == Voters(env, b) && Labels(env, a) == Labels(env, b)
  {
    SameMembers(a, b);
  }

  lemma SameVotesSameCount(env: Env, a: seq<Vote>, b: seq<Vote>)
    requires multiset(a) == multiset(b)
    ensures |FirstVotes(env, a)| == |FirstVotes(env, b)|
  {
    SameVotesSameSets(env, a, b);
    FirstVotesCount(env, a);
    FirstVotesCount(env, b);
  }

  /** The elements of a multiset in some order. */
  lemma {:induction false} Listed(m: multiset<Vote>) returns (s: seq<Vote>)
    ensures multiset(s) == m
    decreases |m|
  {
    if m == multiset{} {
      s := [];
    } else {
      var v :| v in m;
      var rest := Listed(m - multiset{v});
      s := rest + [v];
      assert multiset(s) == (m - multiset{v}) + multiset{v} == m;
    }
  }

  // ---------------------------------------------------------------- first votes

  /** No two votes by the same voter. */
  ghost predicate OnePerVoter(env: Env, votes: seq<Vote>) {
    forall i, j :: 0 <= i < j < |votes| ==> Norm(env.fold, votes[i].actor) != Norm(env.fold, votes[j].actor)
  }

  lemma AnotherVoter(env: Env, votes: seq<Vote>, v: Vote)
    requires OnePerVoter(env, votes) && Norm(env.fold, v.actor) !in Voters(env, votes)
    ensures OnePerVoter(env, votes + [v])
  {
    forall i | 0 <= i < |votes| ensures Norm(env.fold, votes[i].actor) != Norm(env.fold, v.actor) {
      assert votes[i] in votes && Norm(env.fold, votes[i].actor) in Voters(env, votes);
    }
  }

  lemma {:induction false} FirstVotesAreCast(env: Env, votes: seq<Vote>)
    ensures multiset(FirstVotes(env, votes)) <= multiset(votes)
  {
    if votes != [] {
      assert votes[..|votes| - 1] + [votes[|votes| - 1]] == votes;
      FirstVotesAreCast(env, votes[..|votes| - 1]);
    }
  }

  /** The first votes are one vote of every voter. */
  lemma {:induction false} FirstVotesAreOneEach(env: Env, votes: seq<Vote>)
    ensures OnePerVoter(env, FirstVotes(env, votes)) && multiset(FirstVotes(env, votes)) <= multiset(votes)
    ensures Voters(env, FirstVotes(env, votes)) == Voters(env, votes)
  {
    FirstVotesAreCast(env, votes);
    FirstVotesCount(env, votes);
    if votes != [] {
      var before, v := votes[..|votes| - 1], votes[|votes| - 1];
      FirstVotesAreOneEach(env, before);
      if Norm(env.fold, v.actor) !in Voters(env, before) { AnotherVoter(env, FirstVotes(env, before), v); }
    }
  }

  lemma {:induction false} OneEachStays(env: Env, votes: seq<Vote>)
    requires OnePerVoter(env, votes)
    ensures FirstVotes(env, votes) == votes
  {
    if votes != [] {
      var before, v := votes[..|votes| - 1], votes[|votes| - 1];
      OneEachStays(env, before);
      forall w | w in before ensures Norm(env.fold, w.actor) != Norm(env.fold, v.actor) {
        var i :| 0 <= i < |before| && before[i] == w;
        assert votes[i] == w && votes[|votes| - 1] == v;
      }
      assert before + [v] == votes;
    }
  }

  /** More votes behind change the first votes only by adding to them. */
  lemma {:induction false} FirstVotesGrow(env: Env, votes: seq<Vote>, more: seq<Vote>)
    ensures FirstVotes(env, votes) <= FirstVotes(env, votes + more)
  {
    if more == [] {
      assert votes + more == votes;
    } else {
      assert (votes + more)[..|votes + more| - 1] == votes + more[..|more| - 1];
      FirstVotesGrow(env, votes, more[..|more| - 1]);
    }
  }

  /** Voters who voted before add nothing. */
  lemma {:induction false} LateVotesAddNothing(env: Env, votes: seq<Vote>, more: seq<Vote>)
    requires Voters(env, more) <= Voters(env, votes)
    ensures FirstVotes(env, votes + more) == FirstVotes(env, votes)
  {
    if more == [] {
      assert votes + more == votes;
    } else {
      var rest, v := more[..|more| - 1], more[|more| - 1];
      assert rest + [v] == more;
      VotersSnoc(env, rest, v);
      assert (votes + more)[..|votes + more| - 1] == votes + rest;
      LateVotesAddNothing(env, votes, rest);
      assert forall w :: w in votes ==> w in votes + rest;
      assert Norm(env.fold, v.actor) in Voters(env, votes + rest);
    }
  }

  // ---------------------------------------------------------------- the roles that first votes speak for

  /** Some voter speaks for this role in every vote. */
  ghost predicate SoleLabel(env: Env, votes: seq<Vote>, spoken: string) {
    exists u :: u in votes && OnlyLabel(env, votes, Norm(env.fold, u.actor), spoken)
  }

  predicate OnlyLabel(env: Env, votes: seq<Vote>, voter: string, spoken: string) {
    forall v :: v in votes && Norm(env.fold, v.actor) == voter ==> Label(env, v) == spoken
  }

  lemma SoleLabelIsCounted(env: Env, votes: seq<Vote>, other: seq<Vote>, spoken: string)
    requires multiset(votes) == multiset(other) && SoleLabel(env, votes, spoken)
    ensures spoken in Labels(env, FirstVotes(env, other))
  {
    var u :| u in votes && OnlyLabel(env, votes, Norm(env.fold, u.actor), spoken);
    SameVotesSameSets(env, votes, other);
    SameMembers(votes, other);
    FirstVotesAreOneEach(env, other);
    var firsts := FirstVotes(env, other);
    assert Norm(env.fold, u.actor) in Voters(env, firsts);
    var v :| v in firsts && Norm(env.fold, v.actor) == Norm(env.fold, u.actor);
    assert v in multiset(firsts) && v in multiset(other) && v in votes;
  }

  /** The votes that speak for a role, or those that do not. */
  function Speaking(env: Env, votes: seq<Vote>, spoken: string, wanted: bool): seq<Vote> {
    if votes == [] then [] else
    var rest, v := Speaking(env, votes[..|votes| - 1], spoken, wanted), votes[|votes| - 1];
    if (Label(env, v) == spoken) == wanted then rest + [v] else rest
  }

  lemma {:induction false} SpeakingSplits(env: Env, votes: seq<Vote>, spoken: string)
    ensures multiset(Speaking(env, votes, spoken, false)) + multiset(Speaking(env, votes, spoken, true))
            == multiset(votes)
    ensures forall v :: v in Speaking(env, votes, spoken, false) <==> v in votes && Label(env, v) != spoken
    ensures forall v :: v in Speaking(env, votes, spoken, true) <==> v in votes && Label(env, v) == spoken
  {
    if votes != [] {
      var before, v := votes[..|votes| - 1], votes[|votes| - 1];
      assert before + [v] == votes;
      SpeakingSplits(env, before, spoken);
    }
  }

  /** A role that is nobody's only one is missed when the votes for it come last. */
  lemma MissingOrder(env: Env, votes: seq<Vote>, spoken: string) returns (other: seq<Vote>)
    requires !SoleLabel(env, votes, spoken)
    ensures multiset(other) == multiset(votes) && spoken !in Labels(env, FirstVotes(env, other))
  {
    var without, withIt := Speaking(env, votes, spoken, false), Speaking(env, votes, spoken, true);
    SpeakingSplits(env, votes, spoken);
    other := without + withIt;
    forall u | u in withIt ensures Norm(env.fold, u.actor) in Voters(env, without) {
      assert !OnlyLabel(env, votes, Norm(env.fold, u.actor), spoken);
      var v :| v in votes && Norm(env.fold, v.actor) == Norm(env.fold, u.actor) && Label(env, v) != spoken;
      assert v in without;
    }
    LateVotesAddNothing(env, without, withIt);
    FirstVotesAreOneEach(env, without);
    forall v | v in FirstVotes(env, without) ensures Label(env, v) != spoken {
      assert v in multiset(FirstVotes(env, without)) && v in multiset(without) && v in without;
    }
  }

  /** One vote each of some voters can always be made to come first. */
  lemma ChosenFirst(env: Env, votes: seq<Vote>, chosen: seq<Vote>) returns (other: seq<Vote>)
    requires OnePerVoter(env, chosen) && multiset(chosen) <= multiset(votes)
    ensures multiset(other) == multiset(votes) && chosen <= FirstVotes(env, other)
  {
    var rest := Listed(multiset(votes) - multiset(chosen));
    other := chosen + rest;
    OneEachStays(env, chosen);
    FirstVotesGrow(env, chosen, rest);
  }

  lemma LabelsOfPrefix(env: Env, a: seq<Vote>, b: seq<Vote>)
    requires a <= b
    ensures Labels(env, a) <= Labels(env, b)
  {
    forall v | v in a ensures v in b {
      var i :| 0 <= i < |a| && a[i] == v;
      assert b[i] == v;
    }
  }

  lemma LabelsOfSome(env: Env, a: seq<Vote>, b: seq<Vote>)
    requires multiset(a) <= multiset(b)
    ensures Labels(env, a) <= Labels(env, b)
  {
    forall v | v in a ensures v in b {
      assert v in multiset(a) && v in multiset(b);
    }
  }

  /** The roles that first votes speak for are the same in every order of the votes. */
  ghost predicate LabelsSettled(env: Env, votes: seq<Vote>) {
    forall other :: multiset(other) == multiset(votes) ==>
      Labels(env, FirstVotes(env, other)) == Labels(env, FirstVotes(env, votes))
  }

  /** Every role anybody speaks for is some voter's only one. */
  ghost predicate AllSole(env: Env, votes: seq<Vote>) {
    forall v :: v in votes ==> SoleLabel(env, votes, Label(env, v))
  }

  /**
   The roles that first votes speak for do not depend on the order of the votes if and only if every role anybody
   speaks for is some voter's only one.
   */
  lemma LabelsSettledIff(env: Env, votes: seq<Vote>)
    ensures LabelsSettled(env, votes) <==> AllSole(env, votes)
  {
    if AllSole(env, votes) {
      forall other | multiset(other) == multiset(votes)
        ensures Labels(env, FirstVotes(env, other)) == Labels(env, votes)
      {
        AllSoleCounts(env, votes, other);
      }
      AllSoleCounts(env, votes, votes);
    } else {
      var v :| v in votes && !SoleLabel(env, votes, Label(env, v));
      var last := MissingOrder(env, votes, Label(env, v));
      assert v in multiset(votes);
      var first := ChosenFirst(env, votes, [v]);
      LabelsOfPrefix(env, [v], FirstVotes(env, first));
      assert v in [v] && Label(env, v) in Labels(env, [v]);
    }
  }

  lemma AllSoleCounts(env: Env, votes: seq<Vote>, other: seq<Vote>)
    requires AllSole(env, votes) && multiset(other) == multiset(votes)
    ensures Labels(env, FirstVotes(env, other)) == Labels(env, votes)
  {
    FirstVotesAreOneEach(env, other);
    LabelsOfSome(env, FirstVotes(env, other), votes);
    forall spoken | spoken in Labels(env, votes) ensures spoken in Labels(env, FirstVotes(env, other)) {
      var v :| v in votes && Label(env, v) == spoken;
      SoleLabelIsCounted(env, votes, other, spoken);
    }
  }

  // ---------------------------------------------------------------- the declared roles

  /** Some choice of one vote per voter speaks for all the declared roles. */
  ghost predicate SomeChoiceCovers(env: Env, votes: seq<Vote>, roles: seq<string>) {
    exists chosen: seq<Vote> ::
      && OnePerVoter(env, chosen) && multiset(chosen) <= multiset(votes)
      && Needed(env, roles) <= Labels(env, chosen)
  }

  /** Every choice of one vote per voter does: each declared role is some voter's only one. */
  ghost predicate EveryChoiceCovers(env: Env, votes: seq<Vote>, roles: seq<string>) {
    forall spoken :: spoken in Needed(env, roles) ==> SoleLabel(env, votes, spoken)
  }

  lemma CoveringOrder(env: Env, votes: seq<Vote>, roles: seq<string>) returns (other: seq<Vote>)
    requires SomeChoiceCovers(env, votes, roles)
    ensures multiset(other) == multiset(votes) && Needed(env, roles) <= Labels(env, FirstVotes(env, other))
  {
    var chosen: seq<Vote> :|
      && OnePerVoter(env, chosen) && multiset(chosen) <= multiset(votes)
      && Needed(env, roles) <= Labels(env, chosen);
    other := ChosenFirst(env, votes, chosen);
    LabelsOfPrefix(env, chosen, FirstVotes(env, other));
  }

  lemma FailingOrder(env: Env, votes: seq<Vote>, roles: seq<string>) returns (other: seq<Vote>)
    requires !EveryChoiceCovers(env, votes, roles)
    ensures multiset(other) == multiset(votes) && !(Needed(env, roles) <= Labels(env, FirstVotes(env, other)))
  {
    var spoken :| spoken in Needed(env, roles) && !SoleLabel(env, votes, spoken);
    other := MissingOrder(env, votes, spoken);
  }

  lemma CoverageIsSettled(env: Env, votes: seq<Vote>, other: seq<Vote>, roles: seq<string>)
    requires multiset(other) == multiset(votes)
    ensures EveryChoiceCovers(env, votes, roles) ==> Needed(env, roles) <= Labels(env, FirstVotes(env, other))
    ensures Needed(env, roles) <= Labels(env, FirstVotes(env, other)) ==> SomeChoiceCovers(env, votes, roles)
  {
    if EveryChoiceCovers(env, votes, roles) {
      forall spoken | spoken in Needed(env, roles) ensures spoken in Labels(env, FirstVotes(env, other)) {
        SoleLabelIsCounted(env, votes, other, spoken);
      }
    }
    FirstVotesAreOneEach(env, other);
  }

  // ---------------------------------------------------------------- the status

  /** The status by the votes if the role condition were `met`. */
  function StatusIf(env: Env, p: Pause, met: bool): Status {
    var rejected := WithDecision(p.votes, "reject") != [];
    if rejected && p.rejectShortCircuit then Rejected
    else if met && QuorumMet(env, p) then Approved
    else if rejected && (!met || |p.votes| >= p.required) then Rejected
    else Pending
  }

  /** The role condition decides: no rejection settles the gate, and either the quorum is met or votes are missing. */
  predicate RolesDecide(env: Env, p: Pause) {
    var rejected := WithDecision(p.votes, "reject") != [];
    && !(rejected && p.rejectShortCircuit)
    && (QuorumMet(env, p) || (rejected && |p.votes| < p.required))
  }

  lemma RolesDecideMeans(env: Env, p: Pause)
    ensures VoteStatus(env, p) == StatusIf(env, p, RolesMet(env, p))
    ensures StatusIf(env, p, true) != StatusIf(env, p, false) <==> RolesDecide(env, p)
  {}

  lemma SameVotesSameStatusIf(env: Env, p: Pause, votes: seq<Vote>, met: bool)
    requires multiset(votes) == multiset(p.votes)
    ensures StatusIf(env, p.(votes := votes), met) == StatusIf(env, p, met)
  {
    var a, b := WithDecision(p.votes, "approve"), WithDecision(votes, "approve");
    SameVotesSameDecisions(p.votes, votes, "approve");
    SameVotesSameDecisions(p.votes, votes, "reject");
    assert |votes| == |multiset(votes)| == |p.votes|;
    SameVotesSameCount(env, a, b);
  }

  predicate Due(env: Env, p: Pause, now: int, ignoreExpiry: bool) {
    !ignoreExpiry && DeadlinePassed(env, p, now)
  }

  /** The gate's outcome is the same in every order of its votes. */
  ghost predicate OrderFree(env: Env, p: Pause, now: int, ignoreExpiry: bool) {
    forall votes :: multiset(votes) == multiset(p.votes) ==>
      Evaluate(env, p.(votes := votes), now, ignoreExpiry) == Evaluate(env, p, now, ignoreExpiry)
  }

  /** Whether the role condition holds is the same in every order of the votes. */
  ghost predicate RolesSettled(env: Env, p: Pause) {
    forall votes :: multiset(votes) == multiset(p.votes) ==> RolesMet(env, p.(votes := votes)) == RolesMet(env, p)
  }

  lemma OutcomeFollowsRoles(env: Env, p: Pause, votes: seq<Vote>, now: int, ignoreExpiry: bool)
    requires multiset(votes) == multiset(p.votes)
    ensures Evaluate(env, p.(votes := votes), now, ignoreExpiry) == Evaluate(env, p, now, ignoreExpiry) <==>
            Due(env, p, now, ignoreExpiry) || !RolesDecide(env, p)
            || RolesMet(env, p.(votes := votes)) == RolesMet(env, p)
  {
    var q := p.(votes := votes);
    RolesDecideMeans(env, p);
    RolesDecideMeans(env, q);
    SameVotesSameStatusIf(env, p, votes, true);
    SameVotesSameStatusIf(env, p, votes, false);
    OutcomeFollowsStatus(env, p, votes, now, ignoreExpiry);
  }

  lemma OutcomeFollowsStatus(env: Env, p: Pause, votes: seq<Vote>, now: int, ignoreExpiry: bool)
    ensures Evaluate(env, p.(votes := votes), now, ignoreExpiry) == Evaluate(env, p, now, ignoreExpiry) <==>
            Due(env, p, now, ignoreExpiry) || VoteStatus(env, p.(votes := votes)) == VoteStatus(env, p)
  {}

  lemma {:induction false} DecisionsConcat(a: seq<Vote>, b: seq<Vote>, decision: string)
    ensures WithDecision(a + b, decision) == WithDecision(a, decision) + WithDecision(b, decision)
  {
    if b == [] {
      assert a + b == a;
    } else {
      assert (a + b)[..|a + b| - 1] == a + b[..|b| - 1];
      DecisionsConcat(a, b[..|b| - 1], decision);
    }
  }

  lemma {:induction false} OnlyThatDecision(votes: seq<Vote>, decision: string, wanted: string)
    requires forall v :: v in votes ==> v.decision == decision
    ensures WithDecision(votes, wanted) == if decision == wanted then votes else []
  {
    if votes != [] {
      OnlyThatDecision(votes[..|votes| - 1], decision, wanted);
      assert votes[|votes| - 1] in votes && votes[..|votes| - 1] + [votes[|votes| - 1]] == votes;
    }
  }

  lemma {:induction false} NoneOfThem(votes: seq<Vote>, decision: string)
    requires forall v :: v in votes ==> v.decision != decision
    ensures WithDecision(votes, decision) == []
  {
    if votes != [] { NoneOfThem(votes[..|votes| - 1], decision); }
  }

  /** An order of the approving votes extends to one of all votes. */
  lemma ApprovalsFirst(votes: seq<Vote>, approvals: seq<Vote>) returns (other: seq<Vote>)
    requires multiset(approvals) == multiset(WithDecision(votes, "approve"))
    ensures multiset(other) == multiset(votes) && WithDecision(other, "approve") == approvals
  {
    var a := WithDecision(votes, "approve");
    DecisionsAreASubset(votes, "approve");
    assert multiset(a) <= multiset(votes);
    var rest := Listed(multiset(votes) - multiset(a));
    other := approvals + rest;
    assert multiset(other) == multiset(a) + (multiset(votes) - multiset(a)) == multiset(votes);
    forall v | v in approvals ensures v.decision == "approve" {
      assert v in multiset(approvals) && v in multiset(a);
    }
    forall v | v in rest ensures v.decision != "approve" {
      assert v in multiset(rest) && multiset(rest)[v] == multiset(votes)[v] - multiset(a)[v];
    }
    DecisionsConcat(approvals, rest, "approve");
    OnlyThatDecision(approvals, "approve", "approve");
    NoneOfThem(rest, "approve");
  }

  predicate FirstVotesSpeak(p: Pause) {
    p.distinct && AllRolesWanted(p)
  }

  /** Without distinct actors or without wanted roles the role condition does not depend on the order. */
  lemma RolesSettledOtherwise(env: Env, p: Pause)
    requires !FirstVotesSpeak(p)
    ensures RolesSettled(env, p)
  {
    forall votes | multiset(votes) == multiset(p.votes) ensures RolesMet(env, p.(votes := votes)) == RolesMet(env, p) {
      SameVotesSameDecisions(p.votes, votes, "approve");
      SameVotesSameSets(env, WithDecision(p.votes, "approve"), WithDecision(votes, "approve"));
    }
  }

  lemma RolesSettledIff(env: Env, p: Pause)
    requires FirstVotesSpeak(p)
    ensures var a := WithDecision(p.votes, "approve");
            RolesSettled(env, p)
            <==> (SomeChoiceCovers(env, a, p.approverRoles) ==> EveryChoiceCovers(env, a, p.approverRoles))
  {
    var a := WithDecision(p.votes, "approve");
    forall votes | multiset(votes) == multiset(p.votes)
      ensures EveryChoiceCovers(env, a, p.approverRoles) ==> RolesMet(env, p.(votes := votes))
      ensures RolesMet(env, p.(votes := votes)) ==> SomeChoiceCovers(env, a, p.approverRoles)
    {
      SameVotesSameDecisions(p.votes, votes, "approve");
      CoverageIsSettled(env, a, WithDecision(votes, "approve"), p.approverRoles);
    }
    if SomeChoiceCovers(env, a, p.approverRoles) && !EveryChoiceCovers(env, a, p.approverRoles) {
      var met := CoveringOrder(env, a, p.approverRoles);
      var missed := FailingOrder(env, a, p.approverRoles);
      var yes := ApprovalsFirst(p.votes, met);
      var no := ApprovalsFirst(p.votes, missed);
      assert RolesMet(env, p.(votes := yes)) && !RolesMet(env, p.(votes := no));
    }
  }

  /**
   Exactly when the order of the votes matters for a gate: it is not overdue, wants distinct actors and all of its
   roles, the role condition decides, and some choice of one vote per approving voter speaks for all the roles while
   some role is nobody's only one.
   */
  lemma OrderMattersIff(env: Env, p: Pause, now: int, ignoreExpiry: bool)
    ensures var a := WithDecision(p.votes, "approve");
            !OrderFree(env, p, now, ignoreExpiry) <==>
            && !Due(env, p, now, ignoreExpiry) && FirstVotesSpeak(p) && RolesDecide(env, p)
            && SomeChoiceCovers(env, a, p.approverRoles) && !EveryChoiceCovers(env, a, p.approverRoles)
  {
    if FirstVotesSpeak(p) { RolesSettledIff(env, p); } else { RolesSettledOtherwise(env, p); }
    OrderFreeMeans(env, p, now, ignoreExpiry);
  }

  lemma OrderFreeMeans(env: Env, p: Pause, now: int, ignoreExpiry: bool)
    ensures OrderFree(env, p, now, ignoreExpiry) <==>
            Due(env, p, now, ignoreExpiry) || !RolesDecide(env, p) || RolesSettled(env, p)
  {
    forall votes | multiset(votes) == multiset(p.votes)
      ensures Evaluate(env, p.(votes := votes), now, ignoreExpiry) == Evaluate(env, p, now, ignoreExpiry) <==>
              Due(env, p, now, ignoreExpiry) || !RolesDecide(env, p)
              || RolesMet(env, p.(votes := votes)) == RolesMet(env, p)
    {
      OutcomeFollowsRoles(env, p, votes, now, ignoreExpiry);
    }
  }

  lemma AllSoleCovers(env: Env, votes: seq<Vote>, roles: seq<string>)
    requires AllSole(env, votes) && SomeChoiceCovers(env, votes, roles)
    ensures EveryChoiceCovers(env, votes, roles)
  {
    var chosen: seq<Vote> :|
      && OnePerVoter(env, chosen) && multiset(chosen) <= multiset(votes)
      && Needed(env, roles) <= Labels(env, chosen);
    LabelsOfSome(env, chosen, votes);
    forall spoken | spoken in Needed(env, roles) ensures SoleLabel(env, votes, spoken) {
      assert spoken in Labels(env, votes);
      var v :| v in votes && Label(env, v) == spoken;
    }
  }

  /** The gate with other declared roles, for which the same votes are counted. */
  lemma OtherRoles(env: Env, p: Pause, roles: seq<string>, now: int, ignoreExpiry: bool)
    ensures var q := p.(approverRoles := roles);
            && Due(env, q, now, ignoreExpiry) == Due(env, p, now, ignoreExpiry)
            && Counted(env, q) == Counted(env, p) && RolesDecide(env, q) == RolesDecide(env, p)
  {
    assert Counted(env, p.(approverRoles := roles)) == Counted(env, p);
  }

  /** A role that is nobody's only one, declared by itself, makes the order matter. */
  lemma OneRoleMatters(env: Env, p: Pause, v: Vote, now: int, ignoreExpiry: bool) returns (roles: seq<string>)
    requires p.distinct && p.require == "all" && !Due(env, p, now, ignoreExpiry) && RolesDecide(env, p)
    requires var a := WithDecision(p.votes, "approve"); v in a && !SoleLabel(env, a, Label(env, v))
    ensures !OrderFree(env, p.(approverRoles := roles), now, ignoreExpiry)
  {
    var a := WithDecision(p.votes, "approve");
    roles := [if Present(v.role) then v.role.value else v.actor];
    assert roles[0] in roles && v in [v];
    assert Label(env, v) in Needed(env, roles) && Label(env, v) in Labels(env, [v]);
    assert v in multiset(a);
    assert OnePerVoter(env, [v]) && multiset([v]) <= multiset(a) && Needed(env, roles) <= Labels(env, [v]);
    OtherRoles(env, p, roles, now, ignoreExpiry);
    OrderMattersIff(env, p.(approverRoles := roles), now, ignoreExpiry);
  }

  /**
   For a gate that wants distinct actors and all roles, is not overdue, and where the role condition decides, the order
   of the votes is irrelevant whatever roles are declared if and only if every role anybody approves for is some
   voter's only one.
   */
  lemma AnyRolesOrderFreeIff(env: Env, p: Pause, now: int, ignoreExpiry: bool)
    requires p.distinct && p.require == "all" && !Due(env, p, now, ignoreExpiry) && RolesDecide(env, p)
    ensures (forall roles :: OrderFree(env, p.(approverRoles := roles), now, ignoreExpiry))
            <==> AllSole(env, WithDecision(p.votes, "approve"))
  {
    var a := WithDecision(p.votes, "approve");
    if AllSole(env, a) {
      forall roles ensures OrderFree(env, p.(approverRoles := roles), now, ignoreExpiry) {
        OrderMattersIff(env, p.(approverRoles := roles), now, ignoreExpiry);
        if SomeChoiceCovers(env, a, roles) { AllSoleCovers(env, a, roles); }
      }
    } else {
      var v :| v in a && !SoleLabel(env, a, Label(env, v));
      var roles := OneRoleMatters(env, p, v, now, ignoreExpiry);
    }
  }

  /** Nobody speaks for two different roles in approving votes. */
  ghost predicate OneLabelEach(env: Env, votes: seq<Vote>) {
    forall v, w ::
      && v in votes && w in votes && v.decision == w.decision == "approve"
      && Norm(env.fold, v.actor) == Norm(env.fold, w.actor) ==>
      Label(env, v) == Label(env, w)
  }

  lemma OneLabelEachIsSole(env: Env, votes: seq<Vote>)
    requires OneLabelEach(env, votes)
    ensures AllSole(env, WithDecision(votes, "approve"))
  {
    var a := WithDecision(votes, "approve");
    DecisionsAreASubset(votes, "approve");
    forall v | v in a ensures v in votes && v.decision == "approve" {
      assert v in multiset(a) && v in multiset(votes);
    }
    forall v | v in a ensures SoleLabel(env, a, Label(env, v)) {
      assert OnlyLabel(env, a, Norm(env.fold, v.actor), Label(env, v));
    }
  }

  /** In particular the order is irrelevant when nobody approved for two roles. */
  lemma OrderDoesNotMatter(env: Env, p: Pause, votes: seq<Vote>, now: int, ignoreExpiry: bool)
    requires multiset(votes) == multiset(p.votes)
    requires p.distinct && AllRolesWanted(p) ==> OneLabelEach(env, p.votes)
    ensures Evaluate(env, p.(votes := votes), now, ignoreExpiry) == Evaluate(env, p, now, ignoreExpiry)
  {
    var a := WithDecision(p.votes, "approve");
    if FirstVotesSpeak(p) && SomeChoiceCovers(env, a, p.approverRoles) {
      OneLabelEachIsSole(env, p.votes);
      AllSoleCovers(env, a, p.approverRoles);
    }
    OrderMattersIff(env, p, now, ignoreExpiry);
    assert OrderFree(env, p, now, ignoreExpiry);
  }

  /**
   Alice approves once as `first` and once as `second`, and the gate wants role `first`: with the votes in this order
   it is approved, in the other order it stays pending.
   */
  lemma OrderCanMatter(env: Env, p: Pause, first: string, second: string, now: int)
    requires p.distinct && p.required == 1 && p.require == "all" && p.approverRoles == [first]
    requires first != "" && second != "" && Norm(env.fold, first) != Norm(env.fold, second)
    ensures var a := Vote("alice", "approve", "", Some(first), None, "unsigned", None, false);
            var b := a.(role := Some(second));
            && Evaluate(env, p.(votes := [a, b]), now, true).status == Approved
            && Evaluate(env, p.(votes := [b, a]), now, true).status == Pending
  {
    var a := Vote("alice", "approve", "", Some(first), None, "unsigned", None, false);
    var b := a.(role := Some(second));
    OneWantedRole(env, p, first, a, b);
    FirstOfTwoDecides(env, p, a, b);
    FirstOfTwoDecides(env, p, b, a);
  }

  lemma FirstOfTwoDecides(env: Env, p: Pause, a: Vote, b: Vote)
    requires p.distinct && p.required == 1 && p.require == "all"
    requires a.decision == b.decision == "approve" && a.actor == b.actor
    ensures VoteStatus(env, p.(votes := [a, b]))
         == if Needed(env, p.approverRoles) <= Labels(env, [a]) then Approved else Pending
  {
    TwoVotesOneVoter(env, p, a, b);
  }

  lemma OneWantedRole(env: Env, p: Pause, wanted: string, a: Vote, b: Vote)
    requires p.approverRoles == [wanted] && Label(env, a) == Norm(env.fold, wanted) != Label(env, b)
    ensures Needed(env, p.approverRoles) <= Labels(env, [a])
    ensures !(Needed(env, p.approverRoles) <= Labels(env, [b]))
  {
    assert Label(env, a) in Labels(env, [a]);
    assert Norm(env.fold, wanted) in Needed(env, p.approverRoles);
    assert Label(env, a) !in Labels(env, [b]);
  }

  lemma TwoVotesOneVoter(env: Env, q: Pause, a: Vote, b: Vote)
    requires q.distinct && a.decision == b.decision == "approve" && a.actor == b.actor
    ensures Counted(env, q.(votes := [a, b])) == [a] && WithDecision([a, b], "reject") == []
  {
    var votes := [a, b];
    assert votes[..1] == [a] && [a][..0] == [];
    assert WithDecision([a], "approve") == [a] && WithDecision([a], "reject") == [];
    assert WithDecision(votes, "approve") == [a, b];
    assert FirstVotes(env, [a]) == [a];
    assert a in [a];
  }
}
