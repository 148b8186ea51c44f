/** Saving a gate in the run's pending record and loading it back. */
module PauseRecords {
  import opened Basics
  import opened Texts
  import opened Gates
  import opened GateRuns

  /** The keys of a record, one per field, and any other. */
  datatype Key =
    | KActor | KRole | KDecision | KReason | KAt | KSignatureStatus | KDelegatedFrom | KOverride
    | KApprovalsRequired | KApprovalsReceived | KDistinctActors | KDenyActor | KApproverRoles
    | KRequire | KEligibleActors | KExpiresAt | KOnExpire | KEscalatedTo | KPausedAt
    | KRejectShortCircuit | KRequireReason | KRecommendation | KClockSource | KExpired | KEscalatedAt
    | KOther(name: string)

  datatype Json =
    | Null
    | Bool(b: bool)
    | Int(n: int)
    | Str(s: string)
    | List(items: seq<Json>)
    | Obj(fields: map<Key, Json>)

  type Record = map<Key, Json>

  /** How values that are not strings read as text. */
  type Render = Json -> string

  predicate Truthy(j: Json) {
    match j
    case Null => false
    case Bool(b) => b
    case Int(n) => n != 0
    case Str(s) => s != ""
    case List(items) => items != []
    case Obj(fields) => fields != map[]
  }

  function Get(d: Record, key: Key): Json {
    if key in d then d[key] else Null
  }

  function TextOf(render: Render, j: Json): string {
    if j.Str? then j.s else render(j)
  }

  /** The text under a key, None when there is nothing there. */
  function OptText(render: Render, d: Record, key: Key): Option<string> {
    if Truthy(Get(d, key)) then Some(TextOf(render, Get(d, key))) else None
  }

  function TextOr(render: Render, d: Record, key: Key, other: string): string {
    if Truthy(Get(d, key)) then TextOf(render, Get(d, key)) else other
  }

  function OptJson(s: Option<string>): Json {
    if s.Some? then Str(s.value) else Null
  }

  function Strings(ss: seq<string>): seq<Json> {
    if ss == [] then [] else [Str(ss[0])] + Strings(ss[1..])
  }

  function TextsOf(render: Render, js: seq<Json>): seq<string> {
    if js == [] then [] else [TextOf(render, js[0])] + TextsOf(render, js[1..])
  }

  function Characters(s: string): seq<string> {
    if s == [] then [] else [[s[0]]] + Characters(s[1..])
  }

  /** The texts of a list. Anything falsy is the empty list, a text is the list of its characters. */
  function TextList(render: Render, j: Json): Option<seq<string>> {
    if !Truthy(j) then Some([])
    else if j.List? then Some(TextsOf(render, j.items))
    else if j.Str? then Some(Characters(j.s))
    else None
  }

  // ---------------------------------------------------------------- votes

  function VoteRecord(v: Vote): Record {
    map[KActor := Str(v.actor), KRole := OptJson(v.role), KDecision := Str(v.decision), KReason := OptJson(v.reason),
        KAt := Str(v.at), KSignatureStatus := Str(v.signatureStatus), KDelegatedFrom := OptJson(v.delegatedFrom),
        KOverride := Bool(v.override)]
  }

  function VoteFrom(render: Render, d: Record): Vote {
    Vote(TextOr(render, d, KActor, ""), Lower(Strip(TextOr(render, d, KDecision, ""))), TextOr(render, d, KAt, ""),
         OptText(render, d, KRole), OptText(render, d, KReason), TextOr(render, d, KSignatureStatus, "unsigned"),
         OptText(render, d, KDelegatedFrom), Truthy(Get(d, KOverride)))
  }

  function VoteRecords(votes: seq<Vote>): seq<Json> {
    if votes == [] then [] else [Obj(VoteRecord(votes[0]))] + VoteRecords(votes[1..])
  }

  /** The votes of a list, rows that are not objects passed over. */
  function VotesFrom(render: Render, js: seq<Json>): seq<Vote> {
    if js == [] then []
    else (if js[0].Obj? then [VoteFrom(render, js[0].fields)] else []) + VotesFrom(render, js[1..])
  }

  /** Already in the form loading puts it in. */
  predicate Canonical(s: string) {
    Trimmed(s) && IsLower(s)
  }

  predicate NotEmpty(s: Option<string>) {
    s != Some("")
  }

  predicate WellFormedVote(v: Vote) {
    && Canonical(v.decision) && NotEmpty(v.role) && NotEmpty(v.reason) && NotEmpty(v.delegatedFrom)
    && v.signatureStatus != ""
  }

  // ---------------------------------------------------------------- the whole gate

  function PauseRecord(p: Pause): Record {
    map[KApprovalsRequired := Int(p.required), KApprovalsReceived := List(VoteRecords(p.votes)),
        KDistinctActors := Bool(p.distinct), KDenyActor := List(Strings(p.denyActor)),
        KApproverRoles := List(Strings(p.approverRoles)), KRequire := Str(p.require),
        KEligibleActors := List(Strings(p.eligibleActors)), KExpiresAt := OptJson(p.expiresAt),
        KOnExpire := OptJson(p.onExpire), KEscalatedTo := List(Strings(p.escalatedTo)),
        KPausedAt := OptJson(p.pausedAt), KRejectShortCircuit := Bool(p.rejectShortCircuit),
        KRequireReason := Bool(p.requireReason), KRecommendation := OptJson(p.recommendation),
        KClockSource := Str(p.clockSource), KExpired := Bool(p.expired), KEscalatedAt := OptJson(p.escalatedAt)]
  }

  /** The number under a key: an integer, a truth value counted as 0 or 1, or the given number when absent. */
  function NumberOr(j: Json, other: int): Option<int> {
    match j
    case Null => Some(other)
    case Int(n) => Some(n)
    case Bool(b) => Some(if b then 1 else 0)
    case _ => None
  }

  function RequiredFrom(d: Record): Option<int> {
    NumberOr(Get(d, KApprovalsRequired), 1)
  }

  /** The received votes. Anything falsy is none, a text or an object holds none, a number cannot be walked. */
  function ReceivedFrom(render: Render, d: Record): Option<seq<Vote>> {
    var received := Get(d, KApprovalsReceived);
    if received.List? then Some(VotesFrom(render, received.items))
    else if Truthy(received) && (received.Int? || received.Bool?) then None
    else Some([])
  }

  /** Unless told, a gate that needs more than one approval wants them from different actors. */
  function DistinctFrom(d: Record, required: int): bool {
    if Get(d, KDistinctActors).Null? then required > 1 else Truthy(Get(d, KDistinctActors))
  }

  function RequireFrom(render: Render, d: Record): string {
    OrElse(Lower(Strip(TextOr(render, d, KRequire, "any"))), "any")
  }

  function OnExpireFrom(render: Render, d: Record): Option<string> {
    var e := OptText(render, d, KOnExpire);
    if e.Some? then Some(Lower(Strip(e.value))) else None
  }

  function FlagFrom(d: Record, key: Key, other: bool): bool {
    if key in d then Truthy(d[key]) else other
  }

  /** Load a gate, with no node to fall back on. None stands for the errors conversions raise. */
  function PauseFrom(render: Render, d: Record): Option<Pause> {
    var required, votes := RequiredFrom(d), ReceivedFrom(render, d);
    var deny, roles := TextList(render, Get(d, KDenyActor)), TextList(render, Get(d, KApproverRoles));
    var eligible, targets := TextList(render, Get(d, KEligibleActors)), TextList(render, Get(d, KEscalatedTo));
    if required.None? || votes.None? || deny.None? || roles.None? || eligible.None? || targets.None? then None
    else Some(Pause(
      if required.value < 1 then 1 else required.value, votes.value, DistinctFrom(d, required.value),
      deny.value, roles.value, RequireFrom(render, d), eligible.value, OptText(render, d, KExpiresAt),
      OnExpireFrom(render, d), targets.value, OptText(render, d, KPausedAt),
      FlagFrom(d, KRejectShortCircuit, true), FlagFrom(d, KRequireReason, false), OptText(render, d, KRecommendation),
      TextOr(render, d, KClockSource, "host"), FlagFrom(d, KExpired, false), OptText(render, d, KEscalatedAt)))
  }

  /** What survives saving and loading. */
  predicate WellFormed(p: Pause) {
    && p.required >= 1
    && AllWellFormed(p.votes)
    && Canonical(p.require) && p.require != ""
    && NotEmpty(p.expiresAt) && NotEmpty(p.pausedAt) && NotEmpty(p.recommendation) && NotEmpty(p.escalatedAt)
    && (p.onExpire.Some? ==> p.onExpire.value != "" && Canonical(p.onExpire.value))
    && p.clockSource != ""
  }

  lemma CanonicalMeans(s: string)
    ensures Lower(Strip(s)) == s <==> Canonical(s)
    ensures Canonical(Lower(Strip(s)))
  {
    StripTrims(s);
    LowerMeans(s);
    LowerMeans(Strip(s));
  }

  lemma {:induction false} StringsBack(render: Render, ss: seq<string>)
    ensures TextsOf(render, Strings(ss)) == ss && (Strings(ss) == [] <==> ss == [])
  {
    if ss != [] {
      StringsBack(render, ss[1..]);
      assert Strings(ss)[1..] == Strings(ss[1..]);
    }
  }

  /** A text read back, with a stand-in for the empty one. */
  lemma TextBack(render: Render, d: Record, key: Key, s: string, other: string)
    requires key in d && d[key] == Str(s)
    ensures TextOr(render, d, key, other) == OrElse(s, other)
  {}

  lemma OptTextBack(render: Render, d: Record, key: Key, s: Option<string>)
    requires key in d && d[key] == OptJson(s)
    ensures OptText(render, d, key) == Nonempty(s)
  {}

  lemma LoadedVoteBack(render: Render, v: Vote)
    ensures VoteFrom(render, VoteRecord(v)) == v.(
              decision := Lower(Strip(v.decision)), role := Nonempty(v.role), reason := Nonempty(v.reason),
              delegatedFrom := Nonempty(v.delegatedFrom), signatureStatus := OrElse(v.signatureStatus, "unsigned"))
  {
    var d := VoteRecord(v);
    TextBack(render, d, KActor, v.actor, "");
    TextBack(render, d, KDecision, v.decision, "");
    TextBack(render, d, KAt, v.at, "");
    TextBack(render, d, KSignatureStatus, v.signatureStatus, "unsigned");
    OptTextBack(render, d, KRole, v.role);
    OptTextBack(render, d, KReason, v.reason);
    OptTextBack(render, d, KDelegatedFrom, v.delegatedFrom);
    assert Get(d, KOverride) == Bool(v.override);
  }

  lemma VoteBackIff(render: Render, v: Vote)
    ensures VoteFrom(render, VoteRecord(v)) == v <==> WellFormedVote(v)
  {
    LoadedVoteBack(render, v);
    CanonicalMeans(v.decision);
  }

  lemma FirstVoteBack(render: Render, votes: seq<Vote>)
    requires votes != []
    ensures VotesFrom(render, VoteRecords(votes))
         == [VoteFrom(render, VoteRecord(votes[0]))] + VotesFrom(render, VoteRecords(votes[1..]))
  {
    assert VoteRecords(votes)[1..] == VoteRecords(votes[1..]);
  }

  predicate AllWellFormed(votes: seq<Vote>) {
    forall v :: v in votes ==> WellFormedVote(v)
  }

  lemma FirstAndRest(votes: seq<Vote>)
    requires votes != []
    ensures AllWellFormed(votes) <==> WellFormedVote(votes[0]) && AllWellFormed(votes[1..])
  {
    assert forall v :: v in votes <==> v == votes[0] || v in votes[1..];
  }

  lemma {:induction false} VotesBackIff(render: Render, votes: seq<Vote>)
    ensures VotesFrom(render, VoteRecords(votes)) == votes <==> AllWellFormed(votes)
    ensures |VotesFrom(render, VoteRecords(votes))| == |votes|
  {
    if votes != [] {
      var rest := VotesFrom(render, VoteRecords(votes[1..]));
      VotesBackIff(render, votes[1..]);
      VoteBackIff(render, votes[0]);
      FirstVoteBack(render, votes);
      FirstAndRest(votes);
      SameHeadAndTail(VoteFrom(render, VoteRecord(votes[0])), rest, votes);
    }
  }

  lemma SameHeadAndTail(v: Vote, rest: seq<Vote>, votes: seq<Vote>)
    requires votes != []
    ensures [v] + rest == votes <==> v == votes[0] && rest == votes[1..]
  {
    assert ([v] + rest)[0] == v && ([v] + rest)[1..] == rest;
  }

  /** The lists of a saved gate read back. */
  lemma ListsBack(render: Render, p: Pause)
    ensures var d := PauseRecord(p);
            && TextList(render, Get(d, KDenyActor)) == Some(p.denyActor)
            && TextList(render, Get(d, KApproverRoles)) == Some(p.approverRoles)
            && TextList(render, Get(d, KEligibleActors)) == Some(p.eligibleActors)
            && TextList(render, Get(d, KEscalatedTo)) == Some(p.escalatedTo)
            && ReceivedFrom(render, d) == Some(VotesFrom(render, VoteRecords(p.votes)))
  {
    var d := PauseRecord(p);
    ListBack(render, d, KDenyActor, p.denyActor);
    ListBack(render, d, KApproverRoles, p.approverRoles);
    ListBack(render, d, KEligibleActors, p.eligibleActors);
    ListBack(render, d, KEscalatedTo, p.escalatedTo);
    ReceivedBack(render, d, p.votes);
  }

  lemma ListBack(render: Render, d: Record, key: Key, ss: seq<string>)
    requires key in d && d[key] == List(Strings(ss))
    ensures TextList(render, Get(d, key)) == Some(ss)
  {
    StringsBack(render, ss);
  }

  lemma ReceivedBack(render: Render, d: Record, votes: seq<Vote>)
    requires KApprovalsReceived in d && d[KApprovalsReceived] == List(VoteRecords(votes))
    ensures ReceivedFrom(render, d) == Some(VotesFrom(render, VoteRecords(votes)))
  {}

  /** The texts of a saved gate read back. */
  lemma TextsBack(render: Render, p: Pause)
    ensures var d := PauseRecord(p);
            && OptText(render, d, KExpiresAt) == Nonempty(p.expiresAt)
            && OptText(render, d, KPausedAt) == Nonempty(p.pausedAt)
            && OptText(render, d, KOnExpire) == Nonempty(p.onExpire)
            && OptText(render, d, KRecommendation) == Nonempty(p.recommendation)
            && OptText(render, d, KEscalatedAt) == Nonempty(p.escalatedAt)
            && TextOr(render, d, KRequire, "any") == OrElse(p.require, "any")
            && TextOr(render, d, KClockSource, "host") == OrElse(p.clockSource, "host")
  {
    var d := PauseRecord(p);
    OptTextBack(render, d, KExpiresAt, p.expiresAt);
    OptTextBack(render, d, KPausedAt, p.pausedAt);
    OptTextBack(render, d, KOnExpire, p.onExpire);
    OptTextBack(render, d, KRecommendation, p.recommendation);
    OptTextBack(render, d, KEscalatedAt, p.escalatedAt);
    TextBack(render, d, KRequire, p.require, "any");
    TextBack(render, d, KClockSource, p.clockSource, "host");
  }

  /** The flags and the number of a saved gate read back. */
  lemma FlagsBack(p: Pause)
    ensures var d := PauseRecord(p);
            && RequiredFrom(d) == Some(p.required) && (forall n :: DistinctFrom(d, n) == p.distinct)
            && FlagFrom(d, KRejectShortCircuit, true) == p.rejectShortCircuit
            && FlagFrom(d, KRequireReason, false) == p.requireReason && FlagFrom(d, KExpired, false) == p.expired
  {}

  /** What saving and loading makes of a gate. */
  function Reloaded(render: Render, p: Pause): Pause {
    p.(required := if p.required < 1 then 1 else p.required,
       votes := VotesFrom(render, VoteRecords(p.votes)),
       require := OrElse(Lower(Strip(OrElse(p.require, "any"))), "any"),
       expiresAt := Nonempty(p.expiresAt), pausedAt := Nonempty(p.pausedAt),
       onExpire := if Present(p.onExpire) then Some(Lower(Strip(p.onExpire.value))) else None,
       recommendation := Nonempty(p.recommendation), clockSource := OrElse(p.clockSource, "host"),
       escalatedAt := Nonempty(p.escalatedAt))
  }

  lemma LoadedBack(render: Render, p: Pause)
    ensures PauseFrom(render, PauseRecord(p)) == Some(Reloaded(render, p))
  {
    ListsBack(render, p);
    TextsBack(render, p);
    FlagsBack(p);
  }

  function Nonempty(s: Option<string>): Option<string> {
    if Present(s) then s else None
  }

  lemma RequireBackIff(s: string)
    ensures OrElse(Lower(Strip(OrElse(s, "any"))), "any") == s <==> Canonical(s) && s != ""
  {
    CanonicalMeans(s);
    assert Canonical("any");
    CanonicalMeans("any");
  }

  lemma OnExpireBackIff(s: Option<string>)
    ensures (if Present(s) then Some(Lower(Strip(s.value))) else None) == s
            <==> (s.Some? ==> s.value != "" && Canonical(s.value))
  {
    if s.Some? { CanonicalMeans(s.value); }
  }

  lemma ReloadedIsSameIff(render: Render, p: Pause)
    ensures Reloaded(render, p) == p <==> PartsStay(render, p)
  {}

  /** Saving and loading leaves every part of the gate alone. */
  predicate PartsStay(render: Render, p: Pause) {
    && p.required >= 1 && VotesFrom(render, VoteRecords(p.votes)) == p.votes
    && OrElse(Lower(Strip(OrElse(p.require, "any"))), "any") == p.require
    && Nonempty(p.expiresAt) == p.expiresAt && Nonempty(p.pausedAt) == p.pausedAt
    && (if Present(p.onExpire) then Some(Lower(Strip(p.onExpire.value))) else None) == p.onExpire
    && Nonempty(p.recommendation) == p.recommendation && OrElse(p.clockSource, "host") == p.clockSource
    && Nonempty(p.escalatedAt) == p.escalatedAt
  }

  lemma PartsStayIff(render: Render, p: Pause)
    ensures PartsStay(render, p) <==> WellFormed(p)
  {
    VotesBackIff(render, p.votes);
    RequireBackIff(p.require);
    OnExpireBackIff(p.onExpire);
  }

  /** Saving and loading gives back the gate exactly when the gate is well formed. */
  lemma ReloadIsIdentityIff(render: Render, p: Pause)
    ensures PauseFrom(render, PauseRecord(p)) == Some(p) <==> WellFormed(p)
  {
    LoadedBack(render, p);
    ReloadedIsSameIff(render, p);
    PartsStayIff(render, p);
  }

  // ---------------------------------------------------------------- whole lives with saving in between

  /** Votes as the program casts them, and timestamps as it writes them, are well formed. */
  predicate WellFormedLook(look: Look) {
    look.Touch? && look.vote.Some? ==> WellFormedVote(look.vote.value)
  }

  lemma AdmittedStaysWellFormed(env: Env, p: Pause, v: Vote)
    requires WellFormed(p) && WellFormedVote(v)
    ensures WellFormed(Admit(env, p, v))
  {}

  lemma EscalatedStaysWellFormed(env: Env, p: Pause, now: int, targets: seq<string>, first: Status)
    requires Writes(env) && WellFormed(p)
    ensures WellFormed(Escalating(env, p, now, targets, first))
  {}

  lemma SettledStaysWellFormed(
    env: Env, p: Pause, now: int, targets: seq<string>, vote: Option<Vote>, first: Status, found: Status, again: Status)
    requires Writes(env) && WellFormed(p) && (vote.Some? ==> WellFormedVote(vote.value))
    ensures WellFormed(Settled(env, p, now, targets, vote, first, found, again).0)
  {
    var p1 := Escalating(env, p, now, targets, first);
    EscalatedStaysWellFormed(env, p, now, targets, first);
    if vote.Some? {
      AdmittedStaysWellFormed(env, p1, vote.value);
      EscalatedStaysWellFormed(env, Admit(env, p1, vote.value), now, targets, again);
    }
  }

  lemma LookStaysWellFormed(env: Env, p: Pause, look: Look)
    requires Writes(env) && WellFormed(p) && WellFormedLook(look)
    ensures WellFormed(AfterLook(env, p, look).0)
  {
    if look.Touch? {
      var first := Evaluate(env, p, look.now, false).status;
      var p1 := Escalating(env, p, look.now, look.targets, first);
      var found := Evaluate(env, p1, look.now, first == Escalated).status;
      var again := Again(env, p1, look.now, look.vote, first, found);
      SettledStaysWellFormed(env, p, look.now, look.targets, look.vote, first, found, again);
    }
  }

  /** The gate after a run in which it is saved and loaded again before every look. None if a load ever failed. */
  function ReloadedGateAfter(env: Env, render: Render, p: Pause, looks: seq<Look>): Option<Pause> {
    if looks == [] then PauseFrom(render, PauseRecord(p)) else
    var before := ReloadedGateAfter(env, render, p, looks[..|looks| - 1]);
    if before.None? then None
    else PauseFrom(render, PauseRecord(AfterLook(env, before.value, looks[|looks| - 1]).0))
  }

  /** Saving and loading the gate any number of times during its life changes nothing. */
  lemma {:induction false} ReloadingIsInvisible(env: Env, render: Render, p: Pause, looks: seq<Look>)
    requires Writes(env) && WellFormed(p) && forall k :: 0 <= k < |looks| ==> WellFormedLook(looks[k])
    ensures ReloadedGateAfter(env, render, p, looks) == Some(GateAfter(env, p, looks))
    ensures WellFormed(GateAfter(env, p, looks))
  {
    if looks == [] {
      ReloadIsIdentityIff(render, p);
    } else {
      var before, last := looks[..|looks| - 1], looks[|looks| - 1];
      ReloadingIsInvisible(env, render, p, before);
      LookStaysWellFormed(env, GateAfter(env, p, before), last);
      ReloadIsIdentityIff(render, GateAfter(env, p, looks));
    }
  }

  // ---------------------------------------------------------------- records from elsewhere

  /** Values that are there read as some text. */
  ghost predicate Readable(render: Render) {
    forall j {:trigger render(j)} :: render(j) != ""
  }

  lemma {:induction false} LoadedVotes(render: Render, js: seq<Json>)
    requires Readable(render)
    ensures forall v :: v in VotesFrom(render, js) ==> WellFormedVote(v)
  {
    if js != [] {
      LoadedVotes(render, js[1..]);
      if js[0].Obj? { LoadedVote(render, js[0].fields); }
    }
  }

  lemma LoadedVote(render: Render, d: Record)
    requires Readable(render)
    ensures WellFormedVote(VoteFrom(render, d))
  {
    CanonicalMeans(TextOr(render, d, KDecision, ""));
  }

  /** What the record says about expiry is a text of blanks only. */
  predicate SaysBlankExpiry(render: Render, d: Record) {
    Truthy(Get(d, KOnExpire)) && Strip(TextOf(render, Get(d, KOnExpire))) == ""
  }

  /**
   A record that loads gives a well-formed gate, one that survives all later saving and loading, if and only if it
   does not say a text of blanks about expiry; else the gate behaves as one that says nothing about expiry.
   */
  lemma LoadedIsWellFormedIff(env: Env, render: Render, d: Record, now: int, ignoreExpiry: bool)
    requires Readable(render) && PauseFrom(render, d).Some?
    ensures var p := PauseFrom(render, d).value;
            && (WellFormed(p) <==> !SaysBlankExpiry(render, d))
            && (SaysBlankExpiry(render, d) ==>
                  && WellFormed(p.(onExpire := None))
                  && Evaluate(env, p, now, ignoreExpiry) == Evaluate(env, p.(onExpire := None), now, ignoreExpiry))
  {
    LoadedButExpiry(render, d);
    LoadedExpiry(render, d);
    var p := PauseFrom(render, d).value;
    if p.onExpire == Some("") { BlankExpiry(env, p, now, ignoreExpiry); }
  }

  /** A blank `on_expire` is read back as the empty text, and that as nothing: the gate changes with every save. */
  lemma BlankExpiryIsLost(render: Render, p: Pause)
    requires WellFormed(p)
    ensures PauseFrom(render, PauseRecord(p.(onExpire := Some(" ")))) == Some(p.(onExpire := Some("")))
    ensures PauseFrom(render, PauseRecord(p.(onExpire := Some("")))) == Some(p.(onExpire := None))
  {
    assert Strip(" ") == "" by { assert TrimLeft(" ") == TrimLeft([]) == []; }
    BlankReloads(render, p, " ");
    BlankReloads(render, p, "");
  }

  lemma BlankReloads(render: Render, p: Pause, blank: string)
    requires WellFormed(p) && Strip(blank) == ""
    ensures PauseFrom(render, PauseRecord(p.(onExpire := Some(blank))))
            == Some(p.(onExpire := if blank == "" then None else Some("")))
  {
    var q := p.(onExpire := Some(blank));
    LoadedBack(render, q);
    PartsStayIff(render, p);
    assert q.votes == p.votes && Lower("") == "";
  }

  lemma LoadedRequire(render: Render, d: Record)
    ensures Canonical(RequireFrom(render, d)) && RequireFrom(render, d) != ""
  {
    CanonicalMeans(TextOr(render, d, KRequire, "any"));
    assert Canonical("any");
  }

  lemma LoadedReceived(render: Render, d: Record)
    requires Readable(render) && ReceivedFrom(render, d).Some?
    ensures forall v :: v in ReceivedFrom(render, d).value ==> WellFormedVote(v)
  {
    LoadedVotes(render, if Get(d, KApprovalsReceived).List? then Get(d, KApprovalsReceived).items else []);
  }

  lemma LoadedText(render: Render, d: Record, key: Key)
    requires Readable(render)
    ensures NotEmpty(OptText(render, d, key)) && TextOr(render, d, key, "host") != ""
  {}

  lemma LoadedButExpiry(render: Render, d: Record)
    requires Readable(render) && PauseFrom(render, d).Some?
    ensures WellFormed(PauseFrom(render, d).value.(onExpire := None))
  {
    LoadedRequire(render, d);
    LoadedReceived(render, d);
    LoadedText(render, d, KExpiresAt);
    LoadedText(render, d, KPausedAt);
    LoadedText(render, d, KRecommendation);
    LoadedText(render, d, KEscalatedAt);
    LoadedText(render, d, KClockSource);
  }

  lemma LoadedExpiry(render: Render, d: Record)
    requires PauseFrom(render, d).Some?
    ensures var e := PauseFrom(render, d).value.onExpire; e.Some? ==> Canonical(e.value)
  {
    if OptText(render, d, KOnExpire).Some? { CanonicalMeans(OptText(render, d, KOnExpire).value); }
  }

  lemma BlankExpiry(env: Env, p: Pause, now: int, ignoreExpiry: bool)
    requires p.onExpire == Some("")
    ensures Evaluate(env, p, now, ignoreExpiry) == Evaluate(env, p.(onExpire := None), now, ignoreExpiry)
  {
    ExpiryIgnoresBlank(p);
    VotesIgnoreExpiry(env, p);
  }

  lemma ExpiryIgnoresBlank(p: Pause)
    requires p.onExpire == Some("")
    ensures ExpiryStatus(p) == ExpiryStatus(p.(onExpire := None))
  {
    assert OnExpire(p) == OnExpire(p.(onExpire := None));
  }

  lemma VotesIgnoreExpiry(env: Env, p: Pause)
    ensures VoteStatus(env, p.(onExpire := None)) == VoteStatus(env, p)
  {
    assert Counted(env, p) == Counted(env, p.(onExpire := None));
  }

  // ---------------------------------------------------------------- what each key says

  predicate Says(d: Record, key: Key, j: Json) {
    key in d && d[key] == j
  }

  /** The times of a record that loads, whatever else it says. */
  lemma TimesSay(render: Render, d: Record, s: string)
    requires PauseFrom(render, d).Some? && s != ""
    ensures var p := PauseFrom(render, d).value;
            && (Says(d, KExpiresAt, Str(s)) ==> p.expiresAt == Some(s)) && (KExpiresAt !in d ==> p.expiresAt == None)
            && (Says(d, KPausedAt, Str(s)) ==> p.pausedAt == Some(s)) && (KPausedAt !in d ==> p.pausedAt == None)
            && (Says(d, KEscalatedAt, Str(s)) ==> p.escalatedAt == Some(s))
            && (KEscalatedAt !in d ==> p.escalatedAt == None)
  {}

  /** The other texts. */
  lemma TextsSay(render: Render, d: Record, s: string)
    requires PauseFrom(render, d).Some? && s != ""
    ensures var p := PauseFrom(render, d).value;
            && (Says(d, KRecommendation, Str(s)) ==> p.recommendation == Some(s))
            && (KRecommendation !in d ==> p.recommendation == None)
            && (Says(d, KClockSource, Str(s)) ==> p.clockSource == s)
            && (KClockSource !in d ==> p.clockSource == "host")
            && (Says(d, KOnExpire, Str(s)) ==> p.onExpire == Some(Lower(Strip(s))))
            && (KOnExpire !in d ==> p.onExpire == None)
  {}

  /** Roles and actors are wanted in the way the record says, any of them unless it says so. */
  lemma RequireSays(render: Render, d: Record, s: string)
    requires PauseFrom(render, d).Some? && s != "" && Canonical(s)
    ensures Says(d, KRequire, Str(s)) ==> PauseFrom(render, d).value.require == s
    ensures KRequire !in d ==> PauseFrom(render, d).value.require == "any"
  {
    CanonicalMeans(s);
    AnyIsCanonical();
    assert PauseFrom(render, d).value.require == RequireFrom(render, d);
  }

  lemma AnyIsCanonical()
    ensures Lower(Strip("any")) == "any"
  {
    CanonicalMeans("any");
    assert Canonical("any");
  }

  /** The flags and the number. More than one approval has to come from different actors unless the record says more. */
  lemma FlagsSay(render: Render, d: Record, n: int, b: bool)
    requires PauseFrom(render, d).Some?
    ensures var p := PauseFrom(render, d).value;
            && (Says(d, KApprovalsRequired, Int(n)) ==> p.required == Max(1, n))
            && (KApprovalsRequired !in d ==> p.required == 1)
            && (Says(d, KDistinctActors, Bool(b)) ==> p.distinct == b)
            && (KDistinctActors !in d && Says(d, KApprovalsRequired, Int(n)) ==> p.distinct == (n > 1))
            && (Says(d, KRejectShortCircuit, Bool(b)) ==> p.rejectShortCircuit == b)
            && (KRejectShortCircuit !in d ==> p.rejectShortCircuit)
            && (Says(d, KRequireReason, Bool(b)) ==> p.requireReason == b)
            && (KRequireReason !in d ==> !p.requireReason)
            && (Says(d, KExpired, Bool(b)) ==> p.expired == b) && (KExpired !in d ==> !p.expired)
  {}

  lemma ListSays(render: Render, d: Record, key: Key, ss: seq<string>)
    ensures Says(d, key, List(Strings(ss))) ==> TextList(render, Get(d, key)) == Some(ss)
    ensures key !in d ==> TextList(render, Get(d, key)) == Some([])
  {
    StringsBack(render, ss);
  }

  /** The lists. */
  lemma ListsSay(render: Render, d: Record, ss: seq<string>)
    requires PauseFrom(render, d).Some?
    ensures var p, j := PauseFrom(render, d).value, List(Strings(ss));
            && (Says(d, KDenyActor, j) ==> p.denyActor == ss) && (KDenyActor !in d ==> p.denyActor == [])
            && (Says(d, KApproverRoles, j) ==> p.approverRoles == ss)
            && (KApproverRoles !in d ==> p.approverRoles == [])
            && (Says(d, KEligibleActors, j) ==> p.eligibleActors == ss)
            && (KEligibleActors !in d ==> p.eligibleActors == [])
            && (Says(d, KEscalatedTo, j) ==> p.escalatedTo == ss) && (KEscalatedTo !in d ==> p.escalatedTo == [])
  {
    ListSays(render, d, KDenyActor, ss);
    ListSays(render, d, KApproverRoles, ss);
    ListSays(render, d, KEligibleActors, ss);
    ListSays(render, d, KEscalatedTo, ss);
  }

  /** The votes: one for every object of the list, in order; none without a list. */
  lemma {:induction false} VotesSay(render: Render, d: Record, rows: seq<Record>)
    requires PauseFrom(render, d).Some?
    ensures Says(d, KApprovalsReceived, List(Objects(rows))) ==>
              && |PauseFrom(render, d).value.votes| == |rows|
              && forall k :: 0 <= k < |rows| ==> PauseFrom(render, d).value.votes[k] == VoteFrom(render, rows[k])
    ensures KApprovalsReceived !in d ==> PauseFrom(render, d).value.votes == []
  {
    ObjectsAreVotes(render, rows);
  }

  function Objects(rows: seq<Record>): seq<Json> {
    if rows == [] then [] else [Obj(rows[0])] + Objects(rows[1..])
  }

  lemma {:induction false} ObjectsAreVotes(render: Render, rows: seq<Record>)
    ensures |VotesFrom(render, Objects(rows))| == |rows|
    ensures forall k :: 0 <= k < |rows| ==> VotesFrom(render, Objects(rows))[k] == VoteFrom(render, rows[k])
  {
    if rows != [] {
      ObjectsAreVotes(render, rows[1..]);
      assert Objects(rows)[1..] == Objects(rows[1..]);
    }
  }

  /** The parts of one vote. */
  lemma VoteSays(render: Render, d: Record, s: string, b: bool)
    requires s != ""
    ensures var v := VoteFrom(render, d);
            && (Says(d, KActor, Str(s)) ==> v.actor == s) && (KActor !in d ==> v.actor == "")
            && (Says(d, KAt, Str(s)) ==> v.at == s) && (KAt !in d ==> v.at == "")
            && (Says(d, KDecision, Str(s)) ==> v.decision == Lower(Strip(s)))
            && (Says(d, KRole, Str(s)) ==> v.role == Some(s)) && (KRole !in d ==> v.role == None)
            && (Says(d, KReason, Str(s)) ==> v.reason == Some(s)) && (KReason !in d ==> v.reason == None)
            && (Says(d, KSignatureStatus, Str(s)) ==> v.signatureStatus == s)
            && (KSignatureStatus !in d ==> v.signatureStatus == "unsigned")
            && (Says(d, KDelegatedFrom, Str(s)) ==> v.delegatedFrom == Some(s))
            && (KDelegatedFrom !in d ==> v.delegatedFrom == None)
            && (Says(d, KOverride, Bool(b)) ==> v.override == b) && (KOverride !in d ==> !v.override)
  {}
}
