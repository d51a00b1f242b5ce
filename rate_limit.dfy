/**
 * The sliding-window rate limiter: a closure over a map from client address
 * to the timestamps of the requests it admitted. Each call drops the
 * timestamps at or before `now - windowMs`, answers 429 when `maxRequests`
 * remain, and otherwise records `now`. The client address and the clock
 * reading are parameters of `Admit`.
 */
module RateLimit {
  import opened Wrappers
  import opened Http

  const DefaultMaxRequests := 100
  const DefaultWindowMs := 60000

  /** The reply the middleware sends instead of calling `next()`. */
  const TooManyRequests := ErrorReply(429, "Too many requests, please try again later")

  /** `ts.filter((time) => time > windowStart)`. */
  function Recent(ts: seq<int>, windowStart: int): (r: seq<int>)
    ensures |r| <= |ts|
    ensures forall t :: t in r <==> t in ts && t > windowStart
  {
    if ts == [] then []
    else (if ts[0] > windowStart then [ts[0]] else []) + Recent(ts[1..], windowStart)
  }

  /** Filtering keeps order: it distributes over concatenation. */
  lemma {:induction false} RecentConcat(a: seq<int>, b: seq<int>, windowStart: int)
    ensures Recent(a + b, windowStart) == Recent(a, windowStart) + Recent(b, windowStart)
  {
    if a == [] {
      assert a + b == b;
    } else {
      assert (a + b)[1..] == a[1..] + b;
      RecentConcat(a[1..], b, windowStart);
    }
  }

  /** When every timestamp is inside the window, nothing is dropped. */
  lemma {:induction false} RecentAllInside(ts: seq<int>, windowStart: int)
    requires forall i :: 0 <= i < |ts| ==> ts[i] > windowStart
    ensures Recent(ts, windowStart) == ts
  {
    if ts != [] {
      RecentAllInside(ts[1..], windowStart);
    }
  }

  /** When every timestamp is at or before the window start, all are dropped. */
  lemma {:induction false} RecentAllExpired(ts: seq<int>, windowStart: int)
    requires forall i :: 0 <= i < |ts| ==> ts[i] <= windowStart
    ensures Recent(ts, windowStart) == []
  {
    if ts != [] {
      RecentAllExpired(ts[1..], windowStart);
    }
  }

  ghost predicate Sorted(ts: seq<int>) {
    forall i, j :: 0 <= i < j < |ts| ==> ts[i] <= ts[j]
  }

  /** A sorted list stays sorted under filtering. */
  lemma {:induction false} RecentSorted(ts: seq<int>, windowStart: int)
    requires Sorted(ts)
    ensures Sorted(Recent(ts, windowStart))
  {
    if ts != [] {
      var rest := Recent(ts[1..], windowStart);
      RecentSorted(ts[1..], windowStart);
      if ts[0] > windowStart {
        var r := Recent(ts, windowStart);
        assert r == [ts[0]] + rest;
        forall i, j | 0 <= i < j < |r| ensures r[i] <= r[j] {
          if i == 0 {
            assert r[j] == rest[j - 1];
            assert rest[j - 1] in ts[1..];
          } else {
            assert r[i] == rest[i - 1] && r[j] == rest[j - 1];
          }
        }
      }
    }
  }

  /** The list stored for one client after a call: the recent timestamps
      followed by `now` on admission, the untouched list on rejection. */
  function NextStored(stored: seq<int>, now: int, maxRequests: int, windowMs: int): (r: seq<int>)
    ensures forall t :: t in r ==> t in stored || t == now
    ensures maxRequests > 0 && |stored| <= maxRequests ==> |r| <= maxRequests
    ensures maxRequests <= 0 ==> r == stored
  {
    var recent := Recent(stored, now - windowMs);
    if |recent| >= maxRequests then stored else recent + [now]
  }

  /** With a clock that never goes back, each client's list stays sorted and
      no later than the clock. */
  lemma {:induction false} NextStoredSorted(stored: seq<int>, now: int, maxRequests: int, windowMs: int)
    requires Sorted(stored) && forall t :: t in stored ==> t <= now
    ensures Sorted(NextStored(stored, now, maxRequests, windowMs))
    ensures forall t :: t in NextStored(stored, now, maxRequests, windowMs) ==> t <= now
  {
    var recent := Recent(stored, now - windowMs);
    RecentSorted(stored, now - windowMs);
    if |recent| < maxRequests {
      var next := recent + [now];
      assert NextStored(stored, now, maxRequests, windowMs) == next;
      forall i, j | 0 <= i < j < |next| ensures next[i] <= next[j] {
        assert next[i] == recent[i];
        assert recent[i] in recent;
        if j < |recent| {
          assert next[j] == recent[j];
        }
      }
    }
  }

  /** The list the middleware starts from for `ip`; an address seen for the
      first time has none. */
  function StoredIn(requests: map<string, seq<int>>, ip: string): seq<int> {
    if ip in requests then requests[ip] else []
  }

  /** Every client's list is sorted and no later than `now`. */
  ghost predicate SortedUpTo(requests: map<string, seq<int>>, now: int) {
    forall ip :: ip in requests ==>
      Sorted(requests[ip]) && forall t :: t in requests[ip] ==> t <= now
  }

  /** With a clock that never goes back, one call keeps every client's list
      sorted and no later than the clock. */
  lemma {:induction false} AdmitKeepsSorted(requests: map<string, seq<int>>, ip: string, now: int,
                                            maxRequests: int, windowMs: int)
    requires SortedUpTo(requests, now)
    ensures SortedUpTo(requests[ip := NextStored(StoredIn(requests, ip), now, maxRequests, windowMs)], now)
  {
    var stored := StoredIn(requests, ip);
    assert Sorted(stored) && forall t :: t in stored ==> t <= now;
    NextStoredSorted(stored, now, maxRequests, windowMs);
  }

  class RateLimiter {
    const maxRequests: int
    const windowMs: int
    /** `requests`: client address to the timestamps of its admitted requests. */
    var requests: map<string, seq<int>>

    /** Every stored list is no longer than the limit allows. */
    ghost predicate Valid()
      reads this
    {
      forall ip :: ip in requests ==> |requests[ip]| <= Capacity()
    }

    function Capacity(): nat {
      if maxRequests > 0 then maxRequests else 0
    }

    function Stored(ip: string): seq<int>
      reads this
    {
      StoredIn(requests, ip)
    }

    /** `rateLimit(maxRequests, windowMs)`. */
    constructor (maxRequests: int, windowMs: int)
      ensures this.maxRequests == maxRequests && this.windowMs == windowMs
      ensures requests == map[]
      ensures Valid()
    {
      this.maxRequests := maxRequests;
      this.windowMs := windowMs;
      requests := map[];
    }

    /** `rateLimit()`: 100 requests per 60000 ms. */
    constructor Default()
      ensures maxRequests == DefaultMaxRequests && windowMs == DefaultWindowMs
      ensures requests == map[]
      ensures Valid()
    {
      maxRequests := DefaultMaxRequests;
      windowMs := DefaultWindowMs;
      requests := map[];
    }

    /** The middleware for one request from `ip` at clock reading `now`:
        `None` means `next()` was called. */
    method Admit(ip: string, now: int) returns (rejection: Option<Reply>)
      requires Valid()
      modifies this
      ensures Valid()
      ensures var recent := Recent(old(Stored(ip)), now - windowMs);
              && (rejection.None? <==> |recent| < maxRequests)
              && (rejection.Some? ==> rejection.value == TooManyRequests)
      ensures requests == old(requests)[ip := NextStored(old(Stored(ip)), now, maxRequests, windowMs)]
      ensures rejection.Some? ==> Stored(ip) == old(Stored(ip))
      ensures rejection.None? ==> Stored(ip) == Recent(old(Stored(ip)), now - windowMs) + [now]
    {
      var windowStart := now - windowMs;
      if ip !in requests {
        requests := requests[ip := []];
      }
      var ipRequests := requests[ip];
      var recentRequests := Recent(ipRequests, windowStart);
      if |recentRequests| >= maxRequests {
        return Some(TooManyRequests);
      }
      recentRequests := recentRequests + [now];
      requests := requests[ip := recentRequests];
      rejection := None;
    }
  }

  /** `k` requests at one instant are all inside a window that ends there. */
  lemma {:induction false} SameInstant(k: nat, now: int, windowMs: int)
    requires windowMs > 0
    ensures Recent(seq(k, _ => now), now - windowMs) == seq(k, _ => now)
    ensures seq(k, _ => now) + [now] == seq(k + 1, _ => now)
  {
    RecentAllInside(seq(k, _ => now), now - windowMs);
  }

  /** A client that sends `maxRequests + 1` requests at the same instant is
      admitted `maxRequests` times and then rejected; once the window has
      moved past that instant, it is admitted again. */
  method Burst(maxRequests: nat, windowMs: int, ip: string, now: int)
    returns (replies: seq<Option<Reply>>, later: Option<Reply>)
    requires windowMs > 0
    ensures |replies| == maxRequests + 1
    ensures forall i :: 0 <= i < maxRequests ==> replies[i].None?
    ensures replies[maxRequests] == Some(TooManyRequests)
    ensures later.None? <==> maxRequests > 0
  {
    var limiter := new RateLimiter(maxRequests, windowMs);
    replies := [];
    while |replies| < maxRequests
      invariant limiter.Valid()
      invariant limiter.maxRequests == maxRequests && limiter.windowMs == windowMs
      invariant |replies| <= maxRequests
      invariant forall i :: 0 <= i < |replies| ==> replies[i].None?
      invariant limiter.Stored(ip) == seq(|replies|, _ => now)
    {
      SameInstant(|replies|, now, windowMs);
      var r := limiter.Admit(ip, now);
      replies := replies + [r];
    }
    SameInstant(|replies|, now, windowMs);
    var last := limiter.Admit(ip, now);
    replies := replies + [last];
    RecentAllExpired(limiter.Stored(ip), now);
    later := limiter.Admit(ip, now + windowMs);
  }
}
