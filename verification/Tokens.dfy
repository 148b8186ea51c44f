/**
 Bootstrap, session and action tokens held in memory. A token's digest stands for the token; an action token is its
 authenticated payload and whether its signature checks out. Times are seconds.
 */
module Tokens {
  import opened Basics
  import opened Texts

  type Digest = string

  /** How many accepted nonces are remembered. */
  const MAX_REPLAY: nat := 4096

  datatype Scope = Scope(runId: string, nodeId: string, revision: int, decision: string)

  /** The payload of an action token; `expires` is None when it is missing or not a number. */
  datatype Payload = Payload(purpose: string, scope: Scope, expires: Option<real>, nonce: Digest)

  /** A presented token: unreadable, badly signed, or a payload this service signed. */
  datatype ActionToken = Unreadable | BadSignature | Signed(payload: Payload)

  /** Everything about a token that does not depend on what was accepted before. */
  predicate WellPresented(token: ActionToken, wanted: Scope, now: real) {
    && token.Signed?
    && token.payload.purpose == "action"
    && token.payload.expires.Some? && token.payload.expires.value >= now
    && token.payload.scope == wanted
    && token.payload.nonce != ""
  }

  /** The last `n` elements, or all of them when there are fewer. */
  function Last<T>(s: seq<T>, n: nat): seq<T> {
    if |s| <= n then s else s[|s| - n..]
  }

  /** One presentation of an action token: what is presented, what is asked for, and when. */
  datatype Attempt = Attempt(token: ActionToken, wanted: Scope, now: real)

  function NonceOf(a: Attempt): Digest {
    if a.token.Signed? then a.token.payload.nonce else ""
  }

  /** Accepted: well presented, and not among the last accepted ones. */
  predicate Accepts(accepted: seq<Digest>, a: Attempt) {
    WellPresented(a.token, a.wanted, a.now) && NonceOf(a) !in Last(accepted, MAX_REPLAY)
  }

  /** The nonces accepted over a run of presentations, oldest first. */
  function AcceptedNonces(run: seq<Attempt>): seq<Digest> {
    if run == [] then [] else
    var before, a := AcceptedNonces(run[..|run| - 1]), run[|run| - 1];
    if Accepts(before, a) then before + [NonceOf(a)] else before
  }

  /** The token service. `replay` is an ordered dictionary: its keys in insertion order, each with its expiry. */
  class TokenService {
    const bootstrapTtl: real
    const sessionTtl: real
    const actionTtl: real
    var bootstrap: map<Digest, real>
    var sessions: map<Digest, real>
    var replay: seq<(Digest, real)>

    constructor (bootstrapTtl: real, sessionTtl: real, actionTtl: real)
      ensures bootstrap == map[] && sessions == map[] && replay == []
      ensures this.bootstrapTtl == bootstrapTtl && this.sessionTtl == sessionTtl && this.actionTtl == actionTtl
    {
      this.bootstrapTtl, this.sessionTtl, this.actionTtl := bootstrapTtl, sessionTtl, actionTtl;
      bootstrap, sessions, replay := map[], map[], [];
    }

    method IssueBootstrap(token: Digest, now: real)
      modifies this`bootstrap
      ensures bootstrap == old(bootstrap)[token := now + bootstrapTtl]
    {
      bootstrap := bootstrap[token := now + bootstrapTtl];
    }

    /** Spend a bootstrap token for a session. Whatever the answer, the token is gone. */
    method ConsumeBootstrap(token: Digest, session: Digest, now: real) returns (ok: bool)
      modifies this`bootstrap, this`sessions
      ensures ok == (token in old(bootstrap) && old(bootstrap)[token] >= now)
      ensures bootstrap == old(bootstrap) - {token}
      ensures sessions == if ok then old(sessions)[session := now + sessionTtl] else old(sessions)
    {
      if token !in bootstrap {
        assert bootstrap == bootstrap - {token};
        return false;
      }
      var expires := bootstrap[token];
      bootstrap := bootstrap - {token};
      if expires < now { return false; }
      sessions := sessions[session := now + sessionTtl];
      return true;
    }

    method VerifySession(token: Digest, now: real) returns (ok: bool)
      modifies this`sessions
      ensures ok == (token in old(sessions) && old(sessions)[token] >= now)
      ensures sessions == if ok then old(sessions) else old(sessions) - {token}
    {
      if token !in sessions || sessions[token] < now {
        sessions := sessions - {token};
        return false;
      }
      return true;
    }

    /** The token is good for exactly this scope and until it expires. */
    method IssueAction(scope: Scope, nonce: Digest, now: real) returns (token: ActionToken)
      ensures token.Signed? && token.payload.nonce == nonce
      ensures forall wanted, at ::
                WellPresented(token, wanted, at) <==> nonce != "" && wanted == scope && at <= now + actionTtl
    {
      token := Signed(Payload("action", scope, Some(now + actionTtl), nonce));
    }

    /** The nonces remembered, oldest first. */
    ghost function Remembered(): seq<Digest>
      reads this
    {
      Nonces(replay)
    }

    method ConsumeAction(token: ActionToken, wanted: Scope, now: real) returns (ok: bool)
      requires |replay| <= MAX_REPLAY
      modifies this`replay
      ensures |replay| <= MAX_REPLAY
      ensures ok == (WellPresented(token, wanted, now) && token.payload.nonce !in old(Remembered()))
      ensures ok <==>
                && token.Signed? && token.payload.purpose == "action"
                && token.payload.scope.runId == wanted.runId && token.payload.scope.nodeId == wanted.nodeId
                && token.payload.scope.revision == wanted.revision && token.payload.scope.decision == wanted.decision
                && token.payload.expires.Some? && now <= token.payload.expires.value
                && token.payload.nonce != "" && token.payload.nonce !in old(Remembered())
      ensures Remembered() ==
              if ok then Last(old(Remembered()) + [token.payload.nonce], MAX_REPLAY) else old(Remembered())
    {
      if !token.Signed? { return false; }
      var payload := token.payload;
      if payload.purpose != "action" || payload.expires.None? || payload.expires.value < now { return false; }
      if payload.scope != wanted || payload.nonce == "" { return false; }
      NoncesAt(replay);
      if exists k :: 0 <= k < |replay| && replay[k].0 == payload.nonce {
        return false;
      }
      Remember(payload.nonce, payload.expires.value);
      return true;
    }

    /** Add a nonce behind those remembered, and forget the oldest ones that are too many. */
    method Remember(nonce: Digest, expires: real)
      requires |replay| <= MAX_REPLAY
      modifies this`replay
      ensures |replay| <= MAX_REPLAY && Remembered() == Last(old(Remembered()) + [nonce], MAX_REPLAY)
    {
      ghost var all := replay + [(nonce, expires)];
      NoncesAt(replay);
      NoncesAt(all);
      replay := replay + [(nonce, expires)];
      while |replay| > MAX_REPLAY
        invariant MAX_REPLAY <= |replay| || replay == all
        invariant |replay| <= |all| && replay == Last(all, |replay|)
      {
        replay := replay[1..];
      }
      NoncesAt(replay);
      assert Nonces(replay) == Last(Nonces(all), MAX_REPLAY);
      assert Nonces(all) == old(Remembered()) + [nonce];
    }
  }

  function Nonces(replay: seq<(Digest, real)>): seq<Digest> {
    if replay == [] then [] else [replay[0].0] + Nonces(replay[1..])
  }

  lemma {:induction false} NoncesAt(replay: seq<(Digest, real)>)
    ensures |Nonces(replay)| == |replay| && forall k :: 0 <= k < |replay| ==> Nonces(replay)[k] == replay[k].0
  {
    if replay != [] { NoncesAt(replay[1..]); }
  }

  // ---------------------------------------------------------------- runs of action tokens

  lemma LastOfLast<T>(s: seq<T>, x: T, n: nat)
    requires n > 0
    ensures Last(Last(s, n) + [x], n) == Last(s + [x], n)
  {}

  lemma LastHas<T>(s: seq<T>, n: nat, k: nat)
    requires k < |s| && |s| <= k + n
    ensures s[k] in Last(s, n)
  {
    if |s| > n { assert Last(s, n)[k - (|s| - n)] == s[k]; }
  }

  /** The answer to presentation `k` of a run is the one the run before it calls for. */
  ghost predicate AnswersRightly(run: seq<Attempt>, k: nat, answer: bool)
    requires k < |run|
  {
    answer == Accepts(AcceptedNonces(run[..k]), run[k])
  }

  lemma {:induction false} NextAccepted(run: seq<Attempt>, k: nat)
    requires k < |run|
    ensures var before := AcceptedNonces(run[..k]);
            AcceptedNonces(run[..k + 1]) == if Accepts(before, run[k]) then before + [NonceOf(run[k])] else before
  {
    assert run[..k + 1][..k] == run[..k];
  }

  /** The next presentation of a run. */
  method PresentNext(service: TokenService, run: seq<Attempt>, k: nat) returns (ok: bool)
    requires k < |run| && |service.replay| <= MAX_REPLAY
    requires service.Remembered() == Last(AcceptedNonces(run[..k]), MAX_REPLAY)
    modifies service`replay
    ensures |service.replay| <= MAX_REPLAY && AnswersRightly(run, k, ok)
    ensures service.Remembered() == Last(AcceptedNonces(run[..k + 1]), MAX_REPLAY)
  {
    NextAccepted(run, k);
    LastOfLast(AcceptedNonces(run[..k]), NonceOf(run[k]), MAX_REPLAY);
    ok := service.ConsumeAction(run[k].token, run[k].wanted, run[k].now);
  }

  /** Over any run the service remembers exactly the last accepted nonces, in order, and answers accordingly. */
  method Drive(service: TokenService, run: seq<Attempt>) returns (answers: seq<bool>)
    requires service.replay == []
    modifies service`replay
    ensures service.Remembered() == Last(AcceptedNonces(run), MAX_REPLAY)
    ensures |answers| == |run|
    ensures forall k :: 0 <= k < |run| ==> AnswersRightly(run, k, answers[k])
  {
    answers := [];
    for k := 0 to |run|
      invariant |service.replay| <= MAX_REPLAY && |answers| == k
      invariant service.Remembered() == Last(AcceptedNonces(run[..k]), MAX_REPLAY)
      invariant forall j :: 0 <= j < k ==> AnswersRightly(run, j, answers[j])
    {
      var ok := PresentNext(service, run, k);
      answers := answers + [ok];
    }
    assert run[..|run|] == run;
  }

  /** Two acceptances of one nonce have at least 4096 other acceptances between them. */
  lemma {:induction false} RepeatsAreFarApart(run: seq<Attempt>, i: nat, j: nat)
    requires i < j < |AcceptedNonces(run)|
    requires AcceptedNonces(run)[i] == AcceptedNonces(run)[j]
    ensures j - i - 1 >= 4096
    decreases |run|
  {
    var before, a := AcceptedNonces(run[..|run| - 1]), run[|run| - 1];
    if j < |before| {
      RepeatsAreFarApart(run[..|run| - 1], i, j);
    } else if i >= |before| - MAX_REPLAY {
      LastHas(before, MAX_REPLAY, i);
    }
  }

  /**
   A well-presented token that was accepted before, last at position `p`, is accepted again if and only if at least
   4096 acceptances have happened since.
   */
  lemma AcceptedAgainIff(run: seq<Attempt>, a: Attempt, p: nat)
    requires WellPresented(a.token, a.wanted, a.now)
    requires p < |AcceptedNonces(run)| && AcceptedNonces(run)[p] == NonceOf(a)
    requires forall q :: p < q < |AcceptedNonces(run)| ==> AcceptedNonces(run)[q] != NonceOf(a)
    ensures Accepts(AcceptedNonces(run), a) <==> |AcceptedNonces(run)| - p - 1 >= 4096
  {
    var s := AcceptedNonces(run);
    var from := if |s| <= MAX_REPLAY then 0 else |s| - MAX_REPLAY;
    assert forall k :: 0 <= k < |Last(s, MAX_REPLAY)| ==> Last(s, MAX_REPLAY)[k] == s[from + k];
    if p >= from { LastHas(s, MAX_REPLAY, p); }
  }

  /** Presentations that are all in order and all different are all accepted. */
  lemma {:induction false} DistinctRunIsAccepted(run: seq<Attempt>)
    requires forall k :: 0 <= k < |run| ==> WellPresented(run[k].token, run[k].wanted, run[k].now)
    requires forall i, j :: 0 <= i < j < |run| ==> NonceOf(run[i]) != NonceOf(run[j])
    ensures |AcceptedNonces(run)| == |run| && forall k :: 0 <= k < |run| ==> AcceptedNonces(run)[k] == NonceOf(run[k])
  {
    if run != [] { DistinctRunIsAccepted(run[..|run| - 1]); }
  }

  /** The `k`-th of many presentations that differ only in their nonce. */
  function Numbered(k: nat): Attempt {
    var scope := Scope("run", "node", 0, "approve");
    Attempt(Signed(Payload("action", scope, Some(1.0), Decimal(k))), scope, 0.0)
  }

  function NumberedRun(n: nat): seq<Attempt> {
    if n == 0 then [] else NumberedRun(n - 1) + [Numbered(n - 1)]
  }

  lemma {:induction false} NumberedRunAt(n: nat)
    ensures |NumberedRun(n)| == n && forall k :: 0 <= k < n ==> NumberedRun(n)[k] == Numbered(k)
  {
    if n > 0 { NumberedRunAt(n - 1); }
  }

  /** The `k`-th presentation is in order, and different from those after it. */
  lemma NumberedDiffer(k: nat, n: nat)
    ensures WellPresented(Numbered(k).token, Numbered(k).wanted, Numbered(k).now)
    ensures forall j: nat :: k < j < n ==> NonceOf(Numbered(k)) != NonceOf(Numbered(j))
  {
    forall j: nat | k < j < n ensures NonceOf(Numbered(k)) != NonceOf(Numbered(j)) {
      if Decimal(k) == Decimal(j) { DecimalInjective(k, j); }
    }
  }

  lemma {:induction false} NumberedRunAccepted(n: nat)
    ensures |AcceptedNonces(NumberedRun(n))| == n
    ensures forall k: nat :: k < n ==> AcceptedNonces(NumberedRun(n))[k] == NonceOf(Numbered(k))
  {
    var run := NumberedRun(n);
    NumberedRunAt(n);
    forall k: nat | k < n ensures WellPresented(run[k].token, run[k].wanted, run[k].now) {
      NumberedDiffer(k, n);
    }
    forall i: nat, j: nat | i < j < n ensures NonceOf(run[i]) != NonceOf(run[j]) {
      NumberedDiffer(i, n);
    }
    DistinctRunIsAccepted(run);
  }

  /**
   A token is not single-use for ever: after more than `MAX_REPLAY` tokens were accepted, the first of them, if it has
   not expired, is accepted a second time.
   */
  lemma TokenCanBeReplayed(n: nat)
    requires n > MAX_REPLAY
    ensures var accepted := AcceptedNonces(NumberedRun(n));
            |accepted| == n && accepted[0] == NonceOf(Numbered(0)) && Accepts(accepted, Numbered(0))
  {
    var run := NumberedRun(n);
    NumberedRunAccepted(n);
    NumberedDiffer(0, n);
    AcceptedAgainIff(run, Numbered(0), 0);
  }

  // ---------------------------------------------------------------- runs of bootstrap tokens

  datatype BootstrapStep = Issue(token: Digest, now: real) | Consume(token: Digest, now: real)

  /** The bootstrap tokens still to be spent after a run. */
  function Unspent(run: seq<BootstrapStep>, ttl: real): map<Digest, real> {
    if run == [] then map[] else
    var before, last := Unspent(run[..|run| - 1], ttl), run[|run| - 1];
    match last
    case Issue(token, now) => before[token := now + ttl]
    case Consume(token, _) => before - {token}
  }

  function Issues(run: seq<BootstrapStep>, d: Digest): nat {
    if run == [] then 0 else
    Issues(run[..|run| - 1], d) + (if run[|run| - 1].Issue? && run[|run| - 1].token == d then 1 else 0)
  }

  /** How often a bootstrap token was accepted. */
  function Spendings(run: seq<BootstrapStep>, ttl: real, d: Digest): nat {
    if run == [] then 0 else
    var before, last := Unspent(run[..|run| - 1], ttl), run[|run| - 1];
    Spendings(run[..|run| - 1], ttl, d)
    + (if last.Consume? && last.token == d && d in before && before[d] >= last.now then 1 else 0)
  }

  /** A bootstrap token is accepted at most once per issue, and an expired presentation spends it too. */
  lemma {:induction false} SpentAtMostOncePerIssue(run: seq<BootstrapStep>, ttl: real, d: Digest)
    ensures Spendings(run, ttl, d) + (if d in Unspent(run, ttl) then 1 else 0) <= Issues(run, d)
  {
    if run != [] { SpentAtMostOncePerIssue(run[..|run| - 1], ttl, d); }
  }

  method DriveBootstrap(service: TokenService, run: seq<BootstrapStep>, d: Digest) returns (accepted: nat)
    requires service.bootstrap == map[]
    modifies service`bootstrap, service`sessions
    ensures service.bootstrap == Unspent(run, service.bootstrapTtl)
    ensures accepted == Spendings(run, service.bootstrapTtl, d) <= Issues(run, d)
  {
    accepted := 0;
    for k := 0 to |run|
      invariant service.bootstrap == Unspent(run[..k], service.bootstrapTtl)
      invariant accepted == Spendings(run[..k], service.bootstrapTtl, d)
    {
      assert run[..k + 1][..k] == run[..k];
      match run[k] {
        case Issue(token, now) => service.IssueBootstrap(token, now);
        case Consume(token, now) =>
          var ok := service.ConsumeBootstrap(token, token, now);
          if ok && token == d { accepted := accepted + 1; }
      }
    }
    assert run[..|run|] == run;
    SpentAtMostOncePerIssue(run, service.bootstrapTtl, d);
  }
}
