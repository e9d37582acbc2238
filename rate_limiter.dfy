/** The in-memory sliding-window rate limiter (lib/utils/rate-limiter.ts):
    per identifier, the timestamps of its admitted requests; a request is
    admitted while fewer than `limit` of them fall in the last minute.

    `Date.now()` is the parameter `now` (milliseconds). The LRU cache is a
    map owned by a `RateLimiter` object; its capacity eviction is not
    modelled, and its one-minute expiry is shown unobservable below. */
module RateLimiting {
  import opened Base

  /** Length of the window, and the cache entry lifetime, in milliseconds. */
  const WindowMs: int := 60000

  /** The default of `limit`. */
  const DefaultLimit: int := 10

  datatype RateLimitResult = RateLimitResult(success: bool, remaining: int)

  /** `requests.filter(time => time > now - 60000)`: the stamps inside the
      window, in their stored order. */
  function Recent(stamps: seq<Millis>, now: Millis): (r: seq<Millis>)
    ensures |r| <= |stamps|
    ensures forall i :: 0 <= i < |r| ==> r[i] > now - WindowMs
  {
    if stamps == [] then []
    else if stamps[0] > now - WindowMs then [stamps[0]] + Recent(stamps[1..], now)
    else Recent(stamps[1..], now)
  }

  /** `ratelimit.get(identifier) || []` */
  function Stored(cache: map<string, seq<Millis>>, identifier: string): seq<Millis> {
    if identifier in cache then cache[identifier] else []
  }

  /** One call of `checkRateLimit` on a cache: its result and the cache after it. */
  function Step(cache: map<string, seq<Millis>>, identifier: string, limit: int, now: Millis)
    : (out: (RateLimitResult, map<string, seq<Millis>>))
  {
    var recent := Recent(Stored(cache, identifier), now);
    if |recent| >= limit then (RateLimitResult(false, 0), cache)
    else (RateLimitResult(true, limit - (|recent| + 1)), cache[identifier := recent + [now]])
  }

  /** The limiter: the `ratelimit` cache as a field. */
  class RateLimiter {
    var cache: map<string, seq<Millis>>

    constructor()
      ensures cache == map[]
    {
      cache := map[];
    }

    /** `checkRateLimit(identifier, limit)` at time `now`. */
    method CheckRateLimit(identifier: string, limit: int, now: Millis) returns (r: RateLimitResult)
      modifies this
      ensures (r, cache) == Step(old(cache), identifier, limit, now)
    {
      var requests := if identifier in cache then cache[identifier] else [];
      var recentRequests := Recent(requests, now);
      if |recentRequests| >= limit {
        return RateLimitResult(false, 0);
      }
      recentRequests := recentRequests + [now];
      cache := cache[identifier := recentRequests];
      r := RateLimitResult(true, limit - |recentRequests|);
    }

    /** `clearRateLimit(identifier)` */
    method ClearRateLimit(identifier: string)
      modifies this
      ensures cache == old(cache) - {identifier}
    {
      cache := cache - {identifier};
    }
  }

  /** Only stamps strictly later than `now - 60000` count: a stamp exactly
      one window old is out. */
  lemma WindowBoundary(now: Millis)
    ensures Recent([now - WindowMs], now) == []
    ensures Recent([now - WindowMs + 1], now) == [now - WindowMs + 1]
  {
  }

  /** A request over the limit gets `{success: false, remaining: 0}` and
      the cache is not written; one under it is admitted, its list becomes
      the recent stamps followed by `now`, and `remaining` counts what is left. */
  lemma StepSpec(cache: map<string, seq<Millis>>, identifier: string, limit: int, now: Millis)
    ensures var (r, c) := Step(cache, identifier, limit, now);
      var recent := Recent(Stored(cache, identifier), now);
      && (r.success <==> |recent| < limit)
      && (!r.success ==> r.remaining == 0 && c == cache)
      && (r.success ==> c == cache[identifier := recent + [now]] && r.remaining == limit - |c[identifier]|)
  {
  }

  /** With `limit >= 1` an admitted request leaves between 0 and `limit - 1`
      requests; with `limit <= 0` every request is refused. */
  lemma RemainingBounds(cache: map<string, seq<Millis>>, identifier: string, limit: int, now: Millis)
    ensures var r := Step(cache, identifier, limit, now).0;
      (r.success ==> 0 <= r.remaining <= limit - 1) && (limit <= 0 ==> !r.success)
  {
  }

  /** After any call the identifier holds at most `limit` stamps if the call
      was admitted, and its list is untouched otherwise; no other identifier's
      list changes. */
  lemma StepFrame(cache: map<string, seq<Millis>>, identifier: string, limit: int, now: Millis)
    ensures var (r, c) := Step(cache, identifier, limit, now);
      && (r.success ==> identifier in c && |c[identifier]| <= limit)
      && c.Keys == (if r.success then cache.Keys + {identifier} else cache.Keys)
      && forall other :: other in cache && other != identifier ==> c[other] == cache[other]
  {
  }

  /** A bound on every stored list, the limiter's invariant for a fixed limit. */
  ghost predicate Bounded(cache: map<string, seq<Millis>>, limit: int) {
    forall id :: id in cache ==> |cache[id]| <= limit
  }

  /** Calls with the same limit keep every list within it. */
  lemma StepKeepsBounded(cache: map<string, seq<Millis>>, identifier: string, limit: int, now: Millis)
    requires Bounded(cache, limit)
    ensures Bounded(Step(cache, identifier, limit, now).1, limit)
  {
    StepFrame(cache, identifier, limit, now);
  }

  /** A stamp is kept exactly when it is stored and strictly inside the window. */
  lemma {:induction false} RecentMembers(stamps: seq<Millis>, now: Millis)
    ensures forall t :: t in Recent(stamps, now) <==> t in stamps && t > now - WindowMs
  {
    if stamps != [] {
      RecentMembers(stamps[1..], now);
      assert stamps == [stamps[0]] + stamps[1..];
    }
  }

  /** Nothing is recent when every stored stamp is a whole window old. */
  lemma {:induction false} NoneRecent(stamps: seq<Millis>, now: Millis)
    requires forall t :: t in stamps ==> now - t >= WindowMs
    ensures Recent(stamps, now) == []
  {
    if stamps != [] {
      assert stamps[0] in stamps;
      assert forall t :: t in stamps[1..] ==> t in stamps;
      NoneRecent(stamps[1..], now);
    }
  }

  /** A request made a whole window after every stored stamp of its
      identifier is admitted again as if it were the first. */
  lemma AdmittedAfterWindow(cache: map<string, seq<Millis>>, identifier: string, limit: int, now: Millis)
    requires limit >= 1
    requires forall t :: t in Stored(cache, identifier) ==> now - t >= WindowMs
    ensures Step(cache, identifier, limit, now).0 == RateLimitResult(true, limit - 1)
    ensures Step(cache, identifier, limit, now).1[identifier] == [now]
  {
    NoneRecent(Stored(cache, identifier), now);
  }

  /** The cache's one-minute expiry cannot be observed: an entry whose
      stamps are all a window old answers exactly as a missing one. */
  lemma ExpiryUnobservable(cache: map<string, seq<Millis>>, identifier: string, limit: int, now: Millis)
    requires forall t :: t in Stored(cache, identifier) ==> now - t >= WindowMs
    ensures Step(cache, identifier, limit, now).0 == Step(cache - {identifier}, identifier, limit, now).0
    ensures Step(cache, identifier, limit, now).1 - {identifier}
         == Step(cache - {identifier}, identifier, limit, now).1 - {identifier}
  {
    NoneRecent(Stored(cache, identifier), now);
  }

  /** `k` calls for one identifier at the same instant. */
  function Burst(cache: map<string, seq<Millis>>, identifier: string, limit: int, now: Millis, k: nat)
    : map<string, seq<Millis>>
  {
    if k == 0 then cache else Step(Burst(cache, identifier, limit, now, k - 1), identifier, limit, now).1
  }

  /** Starting with nothing recent, the calls at one instant are admitted
      with `remaining` counting down `limit - 1, ..., 0`, and every call after
      the `limit`-th is refused: with the default 10, ten calls pass and the
      eleventh gets a 429. */
  lemma {:induction false} BurstAtOneInstant(cache: map<string, seq<Millis>>, identifier: string, limit: nat, now: Millis, k: nat)
    requires Recent(Stored(cache, identifier), now) == []
    ensures k <= limit ==> Recent(Stored(Burst(cache, identifier, limit, now, k), identifier), now) == seq(k, i => now)
    ensures var r := Step(Burst(cache, identifier, limit, now, k), identifier, limit, now).0;
      r == if k < limit then RateLimitResult(true, limit - k - 1) else RateLimitResult(false, 0)
    decreases k, 1
  {
    if k > 0 {
      BurstAtOneInstant(cache, identifier, limit, now, k - 1);
    }
    if 0 < k <= limit {
      BurstStep(cache, identifier, limit, now, k);
    } else if k > limit {
      BurstSaturates(cache, identifier, limit, now, k);
    }
  }

  /** One more admitted call at the instant adds one more recent stamp. */
  lemma BurstStep(cache: map<string, seq<Millis>>, identifier: string, limit: nat, now: Millis, k: nat)
    requires 0 < k <= limit
    requires Recent(Stored(Burst(cache, identifier, limit, now, k - 1), identifier), now) == seq(k - 1, i => now)
    ensures Recent(Stored(Burst(cache, identifier, limit, now, k), identifier), now) == seq(k, i => now)
  {
    assert seq(k - 1, i => now) + [now] == seq(k, i => now);
    RecentOfRecent(seq(k, i => now), now);
  }

  /** Once `limit` calls are in, further calls at the same instant change nothing. */
  lemma {:induction false} BurstSaturates(cache: map<string, seq<Millis>>, identifier: string, limit: nat, now: Millis, k: nat)
    requires Recent(Stored(cache, identifier), now) == []
    requires k >= limit
    ensures Burst(cache, identifier, limit, now, k) == Burst(cache, identifier, limit, now, limit)
    decreases k, 0
  {
    if k > limit {
      BurstSaturates(cache, identifier, limit, now, k - 1);
      BurstAtOneInstant(cache, identifier, limit, now, limit);
    }
  }

  /** Stamps already inside the window stay there. */
  lemma {:induction false} RecentOfRecent(stamps: seq<Millis>, now: Millis)
    requires forall i :: 0 <= i < |stamps| ==> stamps[i] > now - WindowMs
    ensures Recent(stamps, now) == stamps
  {
    if stamps != [] {
      RecentOfRecent(stamps[1..], now);
      assert [stamps[0]] + stamps[1..] == stamps;
    }
  }
}
