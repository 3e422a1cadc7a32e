/** The sliding-window rate limiter: per key, the times of recent allowed calls. */
module RateLimit {
  datatype Answer = Allowed | Limited(retryAfter: int) | IndexError

  // ---- one key ----

  /** What popping expired times off the front leaves. */
  function Live(stamps: seq<real>, cutoff: real): seq<real> {
    if stamps == [] || stamps[0] > cutoff then stamps else Live(stamps[1..], cutoff)
  }

  /** A limit below one asks for the first element of an empty list. */
  function Decide(maxRequests: int, window: int, stamps: seq<real>, now: real): Answer {
    var live := Live(stamps, now - window as real);
    if |live| < maxRequests then Allowed
    else if live == [] then IndexError
    else Limited(RetryAfter(window, live[0], now))
  }

  /** int() truncates towards zero. */
  function Truncate(x: real): int {
    if x >= 0.0 then x.Floor else -(-x).Floor
  }

  function RetryAfter(window: int, oldest: real, now: real): int {
    var left := Truncate(window as real - (now - oldest));
    if left > 1 then left else 1
  }

  /** The whole seconds until the oldest call expires, but at least one. */
  lemma RetryAfterExactly(window: int, oldest: real, now: real, r: int)
    ensures var left := window as real - (now - oldest);
            RetryAfter(window, oldest, now) == r <==> r >= 1 && left < (r + 1) as real && (r == 1 || r as real <= left)
  {
  }

  function StampsAfter(maxRequests: int, window: int, stamps: seq<real>, now: real): seq<real> {
    var live := Live(stamps, now - window as real);
    if |live| < maxRequests then live + [now] else live
  }

  class RateLimiter {
    const maxRequests: int
    const windowSeconds: int
    var requests: map<string, seq<real>>

    constructor (maxRequests: int, windowSeconds: int)
      ensures this.maxRequests == maxRequests && this.windowSeconds == windowSeconds && requests == map[]
    {
      this.maxRequests, this.windowSeconds, this.requests := maxRequests, windowSeconds, map[];
    }

    method Check(key: string, now: real) returns (answer: Answer)
      modifies this
      ensures answer == Decide(maxRequests, windowSeconds, StampsOf(old(requests), key), now)
      ensures requests
              == old(requests)[key := StampsAfter(maxRequests, windowSeconds, StampsOf(old(requests), key), now)]
    {
      var timestamps := StampsOf(requests, key);
      var cutoff := now - windowSeconds as real;
      while timestamps != [] && timestamps[0] <= cutoff
        invariant Live(timestamps, cutoff) == Live(StampsOf(old(requests), key), cutoff)
        decreases |timestamps|
      {
        timestamps := timestamps[1..];
      }
      requests := requests[key := timestamps];
      if |timestamps| >= maxRequests {
        if timestamps == [] {
          return IndexError;
        }
        return Limited(RetryAfter(windowSeconds, timestamps[0], now));
      }
      timestamps := timestamps + [now];
      requests := requests[key := timestamps];
      return Allowed;
    }

    method Reset()
      modifies this
      ensures requests == map[]
    {
      requests := map[];
    }
  }

  function StampsOf(requests: map<string, seq<real>>, key: string): seq<real> {
    if key in requests then requests[key] else []
  }

  // ---- runs ----

  datatype Query = Query(key: string, now: real)

  predicate ClockRuns(queries: seq<Query>) {
    forall i, j :: 0 <= i < j < |queries| ==> queries[i].now <= queries[j].now
  }

  /** The lists after the first `n` calls of a run. */
  function RequestsAt(maxRequests: int, window: int, queries: seq<Query>, n: nat): map<string, seq<real>>
    requires n <= |queries|
  {
    if n == 0 then map[]
    else
      var before, q := RequestsAt(maxRequests, window, queries, n - 1), queries[n - 1];
      before[q.key := StampsAfter(maxRequests, window, StampsOf(before, q.key), q.now)]
  }

  function AnswerAt(maxRequests: int, window: int, queries: seq<Query>, k: nat): Answer
    requires k < |queries|
  {
    Decide(maxRequests, window, StampsOf(RequestsAt(maxRequests, window, queries, k), queries[k].key), queries[k].now)
  }

  /** The times at which calls for `key` were allowed, among the first `n`. */
  function AllowedTimes(maxRequests: int, window: int, queries: seq<Query>, key: string, n: nat): seq<real>
    requires n <= |queries|
  {
    if n == 0 then []
    else
      var before := AllowedTimes(maxRequests, window, queries, key, n - 1);
      if queries[n - 1].key == key && AnswerAt(maxRequests, window, queries, n - 1).Allowed?
      then before + [queries[n - 1].now] else before
  }

  // ---- the invariant of one key's list ----

  predicate Sorted(times: seq<real>) {
    forall i, j :: 0 <= i <= j < |times| ==> times[i] <= times[j]
  }

  /** The list is the tail of the allowed times; what was dropped has expired; allowed calls keep their distance. */
  predicate Window(maxRequests: int, window: int, allowed: seq<real>, stamps: seq<real>, clock: real) {
    && |stamps| <= maxRequests
    && |stamps| <= |allowed| && stamps == allowed[|allowed| - |stamps|..]
    && Sorted(allowed) && (forall i :: 0 <= i < |allowed| ==> allowed[i] <= clock)
    && (forall i :: 0 <= i < |allowed| - |stamps| ==> allowed[i] <= clock - window as real)
    && (forall k :: 0 <= k && k + maxRequests < |allowed| ==> allowed[k + maxRequests] - allowed[k] >= window as real)
  }

  lemma {:induction false} LiveIsATail(stamps: seq<real>, cutoff: real)
    ensures var live := Live(stamps, cutoff);
            && |live| <= |stamps| && live == stamps[|stamps| - |live|..]
            && (forall i :: 0 <= i < |stamps| - |live| ==> stamps[i] <= cutoff)
            && (live != [] ==> live[0] > cutoff)
  {
    if stamps != [] && stamps[0] <= cutoff {
      LiveIsATail(stamps[1..], cutoff);
      var dropped := |stamps| - |Live(stamps[1..], cutoff)|;
      forall i | 0 <= i < dropped
        ensures stamps[i] <= cutoff
      {
        if i > 0 {
          assert stamps[1..][i - 1] == stamps[i];
        }
      }
    }
  }

  /** Expiry alone keeps the invariant at the later clock. */
  lemma ExpiryKeepsWindow(maxRequests: int, window: int, allowed: seq<real>, stamps: seq<real>, clock: real, now: real)
    requires Window(maxRequests, window, allowed, stamps, clock) && clock <= now
    ensures Window(maxRequests, window, allowed, Live(stamps, now - window as real), now)
  {
    hide Live;
    var cutoff := now - window as real;
    LiveIsATail(stamps, cutoff);
    var live, d := Live(stamps, cutoff), |allowed| - |stamps|;
    forall i | 0 <= i < |allowed| - |live|
      ensures allowed[i] <= cutoff
    {
      if i >= d {
        assert stamps[i - d] == allowed[i];
      }
    }
    assert live == allowed[|allowed| - |live|..];
  }

  lemma StepKeepsWindow(maxRequests: int, window: int, allowed: seq<real>, stamps: seq<real>, clock: real, now: real)
    requires Window(maxRequests, window, allowed, stamps, clock) && clock <= now && maxRequests >= 1
    ensures var after := if Decide(maxRequests, window, stamps, now).Allowed? then allowed + [now] else allowed;
            Window(maxRequests, window, after, StampsAfter(maxRequests, window, stamps, now), now)
  {
    hide Live;
    var live := Live(stamps, now - window as real);
    ExpiryKeepsWindow(maxRequests, window, allowed, stamps, clock, now);
    if |live| < maxRequests {
      var after := allowed + [now];
      assert live + [now] == after[|after| - |live + [now]|..];
      forall k | 0 <= k && k + maxRequests < |after|
        ensures after[k + maxRequests] - after[k] >= window as real
      {
        if k + maxRequests == |allowed| {
          assert allowed[k] <= now - window as real;
        }
      }
    }
  }

  lemma {:induction false} WindowAlways(maxRequests: int, window: int, queries: seq<Query>, key: string, n: nat,
      now: real)
    requires maxRequests >= 1 && n <= |queries| && ClockRuns(queries)
    requires forall i :: 0 <= i < n ==> queries[i].now <= now
    ensures Window(maxRequests, window, AllowedTimes(maxRequests, window, queries, key, n),
                   StampsOf(RequestsAt(maxRequests, window, queries, n), key), now)
  {
    hide Decide, StampsAfter, Window, ClockRuns;
    if n == 0 {
      EmptyWindow(maxRequests, window, now);
    } else {
      var q := queries[n - 1];
      assert forall i :: 0 <= i < n - 1 ==> queries[i].now <= q.now by { Earlier(queries, n - 1); }
      WindowAlways(maxRequests, window, queries, key, n - 1, q.now);
      var allowed := AllowedTimes(maxRequests, window, queries, key, n - 1);
      var stamps := StampsOf(RequestsAt(maxRequests, window, queries, n - 1), key);
      if q.key == key {
        StepKeepsWindow(maxRequests, window, allowed, stamps, q.now, q.now);
      }
      var after := AllowedTimes(maxRequests, window, queries, key, n);
      WindowLater(maxRequests, window, after, StampsOf(RequestsAt(maxRequests, window, queries, n), key), q.now, now);
    }
  }

  lemma EmptyWindow(maxRequests: int, window: int, now: real)
    requires maxRequests >= 1
    ensures Window(maxRequests, window, [], [], now)
  {
  }

  lemma Earlier(queries: seq<Query>, k: nat)
    requires ClockRuns(queries) && k < |queries|
    ensures forall i :: 0 <= i < k ==> queries[i].now <= queries[k].now
  {
  }

  lemma WindowLater(maxRequests: int, window: int, allowed: seq<real>, stamps: seq<real>, clock: real, now: real)
    requires Window(maxRequests, window, allowed, stamps, clock) && clock <= now
    ensures Window(maxRequests, window, allowed, stamps, now)
  {
  }

  // ---- what the limiter promises ----

  /** Of the allowed calls for a key, each is a full window after the one `maxRequests` before it, and the list
      never holds more than `maxRequests`. */
  lemma WindowRespected(maxRequests: int, window: int, queries: seq<Query>, key: string, k: nat)
    requires maxRequests >= 1 && ClockRuns(queries)
    ensures |StampsOf(RequestsAt(maxRequests, window, queries, |queries|), key)| <= maxRequests
    ensures var times := AllowedTimes(maxRequests, window, queries, key, |queries|);
            k + maxRequests < |times| ==> times[k + maxRequests] - times[k] >= window as real
  {
    hide AllowedTimes, RequestsAt;
    var n := |queries|;
    WindowAlways(maxRequests, window, queries, key, n, if n == 0 then 0.0 else queries[n - 1].now);
  }

  function CountAfter(times: seq<real>, cutoff: real): nat {
    if times == [] then 0 else (if times[|times| - 1] > cutoff then 1 else 0) + CountAfter(times[..|times| - 1], cutoff)
  }

  lemma {:induction false} SortedCount(times: seq<real>, cutoff: real, d: nat)
    requires Sorted(times) && d <= |times|
    requires forall i :: 0 <= i < d ==> times[i] <= cutoff
    requires d < |times| ==> times[d] > cutoff
    ensures CountAfter(times, cutoff) == |times| - d
    decreases |times|
  {
    if times != [] {
      SortedCount(times[..|times| - 1], cutoff, if d < |times| then d else d - 1);
    }
  }

  /** The reference meaning of a sliding window: a call is allowed exactly when fewer than `maxRequests` calls
      for its key were allowed in the window that ends now. */
  lemma AllowedExactly(maxRequests: int, window: int, queries: seq<Query>, k: nat)
    requires maxRequests >= 1 && k < |queries| && ClockRuns(queries)
    ensures var q := queries[k];
            AnswerAt(maxRequests, window, queries, k).Allowed? <==>
            CountAfter(AllowedTimes(maxRequests, window, queries, q.key, k), q.now - window as real) < maxRequests
  {
    hide AllowedTimes, RequestsAt, Live, CountAfter;
    var q := queries[k];
    var allowed := AllowedTimes(maxRequests, window, queries, q.key, k);
    var stamps := StampsOf(RequestsAt(maxRequests, window, queries, k), q.key);
    var cutoff := q.now - window as real;
    WindowAlways(maxRequests, window, queries, q.key, k, q.now);
    ExpiryKeepsWindow(maxRequests, window, allowed, stamps, q.now, q.now);
    LiveIsATail(stamps, cutoff);
    SortedCount(allowed, cutoff, |allowed| - |Live(stamps, cutoff)|);
  }

  lemma KeptStamps(maxRequests: int, window: int, stamps: seq<real>, now: real)
    requires !Decide(maxRequests, window, stamps, now).Allowed?
    ensures StampsAfter(maxRequests, window, stamps, now) == Live(stamps, now - window as real)
  {
  }

  /** Refused at `now`; nothing else happens to the key; asked again at `later`. Allowed exactly when the oldest
      call has left the window. */
  lemma AllowedLaterExactly(maxRequests: int, window: int, stamps: seq<real>, now: real, later: real)
    requires maxRequests >= 1 && |stamps| <= maxRequests && now <= later
    requires Decide(maxRequests, window, stamps, now).Limited?
    ensures var live := StampsAfter(maxRequests, window, stamps, now);
            live != [] && (Decide(maxRequests, window, live, later).Allowed? <==> live[0] <= later - window as real)
  {
    hide Live, RetryAfter, Truncate;
    var live := StampsAfter(maxRequests, window, stamps, now);
    KeptStamps(maxRequests, window, stamps, now);
    LiveIsATail(stamps, now - window as real);
    assert |live| == maxRequests;
    SomethingExpired(live, later - window as real);
  }

  lemma SomethingExpired(stamps: seq<real>, cutoff: real)
    requires stamps != []
    ensures |Live(stamps, cutoff)| < |stamps| <==> stamps[0] <= cutoff
  {
    hide Live;
    LiveIsATail(stamps, cutoff);
    var live := Live(stamps, cutoff);
    if |live| == |stamps| {
      assert live == stamps;
    }
  }

  /** Waiting retry_after + 1 seconds with no other call on the key is always enough. */
  lemma RetryAfterPlusOneIsEnough(maxRequests: int, window: int, queries: seq<Query>, k: nat, later: real)
    requires maxRequests >= 1 && k < |queries| && ClockRuns(queries)
    requires AnswerAt(maxRequests, window, queries, k).Limited?
    requires later >= queries[k].now + (AnswerAt(maxRequests, window, queries, k).retryAfter + 1) as real
    ensures var stamps := StampsOf(RequestsAt(maxRequests, window, queries, k + 1), queries[k].key);
            Decide(maxRequests, window, stamps, later).Allowed?
  {
    hide Live, AllowedTimes, StampsAfter;
    var q := queries[k];
    var stamps := StampsOf(RequestsAt(maxRequests, window, queries, k), q.key);
    WindowAlways(maxRequests, window, queries, q.key, k, q.now);
    AllowedLaterExactly(maxRequests, window, stamps, q.now, later);
    KeptStamps(maxRequests, window, stamps, q.now);
  }

  /** Waiting retry_after itself is enough exactly when truncation lost nothing: what is left of the window is
      a whole number of seconds, or at most one. */
  lemma RetryAfterIsEnoughExactly(maxRequests: int, window: int, stamps: seq<real>, now: real)
    requires maxRequests >= 1 && |stamps| <= maxRequests && Decide(maxRequests, window, stamps, now).Limited?
    ensures var live := StampsAfter(maxRequests, window, stamps, now);
            && live != []
            && var left := window as real - (now - live[0]);
               var retryAfter := Decide(maxRequests, window, stamps, now).retryAfter;
               (Decide(maxRequests, window, live, now + retryAfter as real).Allowed?
                <==> left <= 1.0 || left == left.Floor as real)
  {
    hide Live;
    KeptStamps(maxRequests, window, stamps, now);
    var retry := Decide(maxRequests, window, stamps, now).retryAfter;
    AllowedLaterExactly(maxRequests, window, stamps, now, now + retry as real);
    LiveIsATail(stamps, now - window as real);
  }

  /** Half a second into a two-second window the advice is one second, which is too short. */
  lemma RetryAfterCanBeTooShort()
    ensures Decide(1, 2, [0.0], 0.5) == Limited(1)
    ensures Decide(1, 2, StampsAfter(1, 2, [0.0], 0.5), 1.5) == Limited(1)
  {
    assert Live([0.0], -1.5) == [0.0] && Live([0.0], -0.5) == [0.0];
    assert 1.5.Floor == 1 && 0.5.Floor == 0;
  }

  // ---- a limit below one ----

  lemma {:induction false} NothingStored(maxRequests: int, window: int, queries: seq<Query>, key: string, n: nat)
    requires maxRequests < 1 && n <= |queries|
    ensures StampsOf(RequestsAt(maxRequests, window, queries, n), key) == []
    decreases n
  {
    if n > 0 {
      NothingStored(maxRequests, window, queries, key, n - 1);
      NothingStored(maxRequests, window, queries, queries[n - 1].key, n - 1);
    }
  }

  /** When the first element of an empty list is asked for: in every run, on every call, exactly when the limit
      is below one. Such a limiter neither allows nor refuses anything. */
  lemma IndexErrorExactly(maxRequests: int, window: int, queries: seq<Query>, k: nat)
    requires k < |queries|
    ensures AnswerAt(maxRequests, window, queries, k).IndexError? <==> maxRequests < 1
  {
    hide RequestsAt, StampsOf;
    if maxRequests < 1 {
      NothingStored(maxRequests, window, queries, queries[k].key, k);
    }
  }

  /** The limit 0 over a minute, on the very first call. */
  lemma ZeroLimitFails()
    ensures AnswerAt(0, 60, [Query("client", 0.0)], 0) == IndexError
  {
    IndexErrorExactly(0, 60, [Query("client", 0.0)], 0);
  }
}
