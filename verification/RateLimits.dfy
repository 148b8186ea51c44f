/**
 The sliding-window rate limiter. It keeps a pruned list of hits; the specification keeps every accepted hit ever.
 */
module RateLimits {
  import opened Basics

  /** How many stamps lie in the closed interval from `lo` to `hi`. */
  function CountIn(stamps: seq<real>, lo: real, hi: real): nat {
    if stamps == [] then 0 else
    CountIn(stamps[..|stamps| - 1], lo, hi) + (if lo <= stamps[|stamps| - 1] <= hi then 1 else 0)
  }

  /** Both ends of the interval belong to it. */
  lemma {:induction false} CountInMeans(stamps: seq<real>, lo: real, hi: real)
    ensures CountIn(stamps, lo, hi) == |set k | 0 <= k < |stamps| && lo <= stamps[k] && stamps[k] <= hi|
  {
    if stamps != [] {
      var init := stamps[..|stamps| - 1];
      CountInMeans(init, lo, hi);
      var before := set k | 0 <= k < |init| && lo <= init[k] && init[k] <= hi;
      var last := stamps[|init|];
      assert (set k | 0 <= k < |stamps| && lo <= stamps[k] && stamps[k] <= hi)
          == before + if lo <= last && last <= hi then {|init|} else {};
    }
  }

  /** The stamps from `cutoff` on. */
  function Since(stamps: seq<real>, cutoff: real): seq<real> {
    if stamps == [] then [] else
    var rest, last := Since(stamps[..|stamps| - 1], cutoff), stamps[|stamps| - 1];
    if last >= cutoff then rest + [last] else rest
  }

  predicate Sorted(stamps: seq<real>) {
    forall i, j :: 0 <= i < j < |stamps| ==> stamps[i] <= stamps[j]
  }

  predicate NoneAfter(stamps: seq<real>, t: real) {
    forall k :: 0 <= k < |stamps| ==> stamps[k] <= t
  }

  /** The rule on the full history: a hit is accepted while fewer than `requests` lie in the last window. */
  predicate Allowed(history: seq<real>, requests: nat, window: real, now: real) {
    CountIn(history, now - window, now) < requests
  }

  /** Every hit accepted over a run of calls. */
  function Accepted(times: seq<real>, requests: nat, window: real): seq<real> {
    if times == [] then [] else
    var before, now := Accepted(times[..|times| - 1], requests, window), times[|times| - 1];
    if Allowed(before, requests, window, now) then before + [now] else before
  }

  lemma {:induction false} SinceCounts(stamps: seq<real>, cutoff: real, now: real)
    requires NoneAfter(stamps, now)
    ensures |Since(stamps, cutoff)| == CountIn(stamps, cutoff, now)
  {
    if stamps != [] { SinceCounts(stamps[..|stamps| - 1], cutoff, now); }
  }

  /** Pruning twice with growing cutoffs is pruning once with the later one. */
  lemma {:induction false} SinceSince(stamps: seq<real>, early: real, late: real)
    requires early <= late
    ensures Since(Since(stamps, early), late) == Since(stamps, late)
  {
    if stamps != [] {
      var init, last := stamps[..|stamps| - 1], stamps[|stamps| - 1];
      SinceSince(init, early, late);
      if last >= early {
        assert (Since(init, early) + [last])[..|Since(init, early)|] == Since(init, early);
      }
    }
  }

  /** One more hit, at the latest time so far. */
  lemma {:induction false} OneMoreHit(stamps: seq<real>, cutoff: real, now: real)
    requires Sorted(stamps) && NoneAfter(stamps, now) && cutoff <= now
    ensures Sorted(stamps + [now]) && NoneAfter(stamps + [now], now)
    ensures Since(stamps + [now], cutoff) == Since(stamps, cutoff) + [now]
  {
    assert (stamps + [now])[..|stamps|] == stamps;
  }

  /** The limiter: its quota, its window, and the hits it still remembers. */
  class RateLimiter {
    const requests: nat
    const window: real
    var hits: seq<real>
    ghost var history: seq<real>
    ghost var clock: real
    ghost var prunedAt: real

    ghost predicate Valid()
      reads this
    {
      && requests >= 1 && window > 0.0
      && Sorted(history) && NoneAfter(history, clock)
      && prunedAt <= clock - window && hits == Since(history, prunedAt)
    }

    constructor (requested: int, windowSeconds: real)
      ensures Valid() && hits == [] && history == []
      ensures requests == (if requested < 1 then 1 else requested)
      ensures window == (if windowSeconds < 0.001 then 0.001 else windowSeconds)
    {
      requests := if requested < 1 then 1 else requested;
      window := if windowSeconds < 0.001 then 0.001 else windowSeconds;
      hits, history, clock := [], [], 0.0;
      prunedAt := 0.0 - (if windowSeconds < 0.001 then 0.001 else windowSeconds);
    }

    /** One call at time `now`; `ok` is false when the limit is exceeded. The clock is monotonic. */
    method Check(now: real) returns (ok: bool)
      requires Valid() && (history == [] || clock <= now)
      modifies this
      ensures Valid() && clock == now
      ensures ok == Allowed(old(history), requests, window, now)
      ensures history == if ok then old(history) + [now] else old(history)
      ensures hits == Since(history, now - window)
    {
      var cutoff := now - window;
      if history != [] { SinceSince(history, prunedAt, cutoff); }
      hits := Pruned(hits, cutoff);
      assert NoneAfter(history, now);
      SinceCounts(history, cutoff, now);
      OneMoreHit(history, cutoff, now);
      clock, prunedAt := now, cutoff;
      if |hits| >= requests { return false; }
      hits, history := hits + [now], history + [now];
      return true;
    }
  }

  method Pruned(stamps: seq<real>, cutoff: real) returns (kept: seq<real>)
    ensures kept == Since(stamps, cutoff)
  {
    kept := [];
    for k := 0 to |stamps|
      invariant kept == Since(stamps[..k], cutoff)
    {
      assert stamps[..k + 1][..k] == stamps[..k];
      if stamps[k] >= cutoff { kept := kept + [stamps[k]]; }
    }
    assert stamps[..|stamps|] == stamps;
  }

  // ---------------------------------------------------------------- whole runs

  lemma {:induction false} AcceptedFrom(times: seq<real>, requests: nat, window: real)
    requires Sorted(times)
    ensures Sorted(Accepted(times, requests, window))
    ensures times != [] ==> NoneAfter(Accepted(times, requests, window), times[|times| - 1])
  {
    if times != [] {
      var init := times[..|times| - 1];
      AcceptedFrom(init, requests, window);
      if init != [] { assert init[|init| - 1] <= times[|times| - 1]; }
    }
  }

  /** The earlier part of a sorted list holds no more hits of an interval than the window ending at its last stamp. */
  lemma {:induction false} CountShifts(stamps: seq<real>, lo: real, hi: real, lo': real, hi': real)
    requires forall k :: 0 <= k < |stamps| && lo <= stamps[k] <= hi ==> lo' <= stamps[k] <= hi'
    ensures CountIn(stamps, lo, hi) <= CountIn(stamps, lo', hi')
  {
    if stamps != [] { CountShifts(stamps[..|stamps| - 1], lo, hi, lo', hi'); }
  }

  /**
   Over any run of calls at non-decreasing times, no closed interval as long as the window ever holds more than
   `requests` accepted hits.
   */
  lemma {:induction false} NeverTooMany(times: seq<real>, requests: nat, window: real, lo: real)
    requires Sorted(times) && window > 0.0
    ensures CountIn(Accepted(times, requests, window), lo, lo + window) <= requests
  {
    if times != [] {
      var init, now := times[..|times| - 1], times[|times| - 1];
      var before := Accepted(init, requests, window);
      NeverTooMany(init, requests, window, lo);
      if Allowed(before, requests, window, now) {
        assert (before + [now])[..|before|] == before;
        if lo <= now <= lo + window {
          AcceptedFrom(init, requests, window);
          if init != [] { assert init[|init| - 1] <= now; }
          CountShifts(before, lo, lo + window, now - window, now);
        }
      }
    }
  }

  /** A refused call is refused for cause: exactly `requests` accepted hits lie in the window that ends now. */
  lemma RefusedForCause(times: seq<real>, requests: nat, window: real, now: real)
    requires Sorted(times + [now]) && window > 0.0
    requires !Allowed(Accepted(times, requests, window), requests, window, now)
    ensures CountIn(Accepted(times, requests, window), now - window, now) == requests
  {
    assert Sorted(times) by {
      forall i, j | 0 <= i < j < |times| ensures times[i] <= times[j] {
        assert (times + [now])[i] <= (times + [now])[j];
      }
    }
    NeverTooMany(times, requests, window, now - window);
    CountShifts(Accepted(times, requests, window), now - window, now, now - window, now - window + window);
  }

  /** The answer of call `k` is the one the full history gives. */
  ghost predicate AnswersRightly(times: seq<real>, requests: nat, window: real, k: nat, answer: bool)
    requires k < |times|
  {
    answer == Allowed(Accepted(times[..k], requests, window), requests, window, times[k])
  }

  /** The next call of a run. */
  method CallNext(limiter: RateLimiter, times: seq<real>, k: nat) returns (ok: bool)
    requires k < |times| && limiter.Valid() && (limiter.history == [] || limiter.clock <= times[k])
    requires limiter.history == Accepted(times[..k], limiter.requests, limiter.window)
    modifies limiter
    ensures limiter.Valid() && limiter.clock == times[k]
    ensures limiter.history == Accepted(times[..k + 1], limiter.requests, limiter.window)
    ensures AnswersRightly(times, limiter.requests, limiter.window, k, ok)
  {
    assert times[..k + 1][..k] == times[..k];
    ok := limiter.Check(times[k]);
  }

  /** Driving the limiter over a whole run decides every call as the full history would. */
  method Drive(limiter: RateLimiter, times: seq<real>) returns (answers: seq<bool>)
    requires limiter.Valid() && limiter.history == [] && Sorted(times)
    modifies limiter
    ensures limiter.Valid() && limiter.history == Accepted(times, limiter.requests, limiter.window)
    ensures |answers| == |times|
    ensures forall k :: 0 <= k < |times| ==> AnswersRightly(times, limiter.requests, limiter.window, k, answers[k])
  {
    answers := [];
    for k := 0 to |times|
      invariant limiter.Valid() && |answers| == k
      invariant limiter.history == Accepted(times[..k], limiter.requests, limiter.window)
      invariant limiter.history == [] || (k > 0 && limiter.clock == times[k - 1])
      invariant forall j :: 0 <= j < k ==> AnswersRightly(times, limiter.requests, limiter.window, j, answers[j])
    {
      var ok := CallNext(limiter, times, k);
      answers := answers + [ok];
    }
    assert times[..|times|] == times;
  }
}
