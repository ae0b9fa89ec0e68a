/**
 Per-token fixed-window rate limiting (crates/app/cce-admission/src/middleware.rs).

 A window opens at the first request that finds no open one, not on a fixed grid. The
 results below bound what any sliding interval can admit.
 */
module RateLimit {
  import opened Clock
  import opened Text

  /** A token's 32-byte digest. */
  type TokenHash = seq<bv8>

  const RATE_WINDOW: nat := 60_000_000_000
  const U32_MAX: nat := 0xffff_ffff

  datatype RateBucket = RateBucket(windowStart: Instant, count: nat)

  type Buckets = map<TokenHash, RateBucket>

  datatype Request = Request(token: TokenHash, now: Instant)

  function Lookup(m: Buckets, token: TokenHash): Option<RateBucket>
  {
    if token in m then Some(m[token]) else None
  }

  /** The token's bucket after one more request. */
  function Hit(bucket: Option<RateBucket>, now: Instant): RateBucket
  {
    var b := match bucket case None => RateBucket(now, 0) case Some(b) => b;
    var b := if DurationSince(now, b.windowStart) >= RATE_WINDOW then RateBucket(now, 0) else b;
    b.(count := if b.count < U32_MAX then b.count + 1 else U32_MAX)
  }

  class RateLimiter {
    const rateLimitPerMin: nat
    var buckets: Buckets

    constructor (limit: nat)
      requires limit <= U32_MAX
      ensures rateLimitPerMin == limit && buckets == map[]
    {
      rateLimitPerMin := limit;
      buckets := map[];
    }

    /** `AdmissionGate::check_rate`, with the clock reading taken under the lock. */
    method CheckRate(token: TokenHash, now: Instant) returns (ok: bool)
      modifies this
      ensures ok == Admits(rateLimitPerMin, old(buckets), Request(token, now))
      ensures buckets == After(rateLimitPerMin, old(buckets), Request(token, now))
    {
      if rateLimitPerMin == 0 { return true; }
      if token !in buckets {
        buckets := buckets[token := RateBucket(now, 0)];
      }
      var bucket := buckets[token];
      if DurationSince(now, bucket.windowStart) >= RATE_WINDOW {
        bucket := RateBucket(now, 0);
      }
      bucket := bucket.(count := if bucket.count < U32_MAX then bucket.count + 1 else U32_MAX);
      buckets := buckets[token := bucket];
      return bucket.count <= rateLimitPerMin;
    }
  }

  function After(limit: nat, m: Buckets, r: Request): Buckets
  {
    if limit == 0 then m else m[r.token := Hit(Lookup(m, r.token), r.now)]
  }

  predicate Admits(limit: nat, m: Buckets, r: Request)
  {
    limit == 0 || Hit(Lookup(m, r.token), r.now).count <= limit
  }

  // ---------------------------------------------------------------- runs

  predicate Within(t: Instant, lo: int, hi: int) { lo <= t < hi }

  /** How many of the token's requests in `[lo, hi)` a run admits. */
  function AdmittedIn(limit: nat, m: Buckets, run: seq<Request>, token: TokenHash, lo: int, hi: int): nat
    decreases |run|
  {
    if run == [] then 0
    else
      (if run[0].token == token && Within(run[0].now, lo, hi) && Admits(limit, m, run[0]) then 1 else 0)
      + AdmittedIn(limit, After(limit, m, run[0]), run[1..], token, lo, hi)
  }

  /** The token's own request times. */
  function Times(run: seq<Request>, token: TokenHash): seq<Instant>
  {
    if run == [] then []
    else (if run[0].token == token then [run[0].now] else []) + Times(run[1..], token)
  }

  predicate NonDecreasing(ts: seq<Instant>) { forall i, j :: 0 <= i < j < |ts| ==> ts[i] <= ts[j] }

  /** The same count from the token's bucket and request times alone. */
  function AdmittedOf(limit: nat, b: Option<RateBucket>, ts: seq<Instant>, lo: int, hi: int): nat
    decreases |ts|
  {
    if ts == [] then 0
    else
      var b' := Hit(b, ts[0]);
      (if Within(ts[0], lo, hi) && b'.count <= limit then 1 else 0) + AdmittedOf(limit, Some(b'), ts[1..], lo, hi)
  }

  /** Requests of other tokens change nothing. */
  lemma {:induction false} TokensAreIndependent(limit: nat, m: Buckets, run: seq<Request>, token: TokenHash, lo: int, hi: int)
    requires limit > 0
    ensures AdmittedIn(limit, m, run, token, lo, hi) == AdmittedOf(limit, Lookup(m, token), Times(run, token), lo, hi)
    decreases |run|
  {
    if run != [] {
      TokensAreIndependent(limit, After(limit, m, run[0]), run[1..], token, lo, hi);
      var ts := Times(run, token);
      if run[0].token == token {
        assert ts[0] == run[0].now && ts[1..] == Times(run[1..], token);
      } else {
        assert ts == Times(run[1..], token);
      }
    }
  }

  // ---------------------------------------------------------------- the sliding bound

  /** How many windows fit when they start at least one window apart in `[from, hi)`. */
  function Windows(from: int, hi: int): nat
    decreases hi - from
  {
    if from >= hi then 0 else 1 + Windows(from + RATE_WINDOW, hi)
  }

  lemma {:induction false} WindowsMonotone(a: int, b: int, hi: int)
    requires a <= b
    ensures Windows(b, hi) <= Windows(a, hi)
    decreases hi - a
  {
    if b < hi { WindowsMonotone(a + RATE_WINDOW, b + RATE_WINDOW, hi); }
  }

  lemma {:induction false} WindowsOf(lo: int, k: nat)
    ensures Windows(lo, lo + k * RATE_WINDOW) == k
    decreases k
  {
    if k > 0 {
      WindowsOf(lo + RATE_WINDOW, k - 1);
      assert lo + k * RATE_WINDOW == lo + RATE_WINDOW + (k - 1) * RATE_WINDOW;
    }
  }

  lemma TimesLimit(limit: nat, a: nat, b: nat)
    requires a <= b
    ensures limit * a <= limit * b
    ensures limit * (a + 1) == limit * a + limit
  {}

  /** A window opened within the interval is one of those counted from an earlier time. */
  lemma WindowOpens(limit: nat, from: int, x: int, hi: int)
    requires from <= x < hi
    ensures limit + limit * Windows(x + RATE_WINDOW, hi) <= limit * Windows(from, hi)
  {
    WindowsMonotone(from, x, hi);
    TimesLimit(limit, Windows(x, hi), Windows(from, hi));
    TimesLimit(limit, Windows(x + RATE_WINDOW, hi), Windows(x + RATE_WINDOW, hi));
  }

  function Left(limit: nat, count: nat): nat { if count < limit then limit - count else 0 }

  /** From inside the interval: what the open window still holds, and `limit` for each later one. */
  lemma {:induction false} BoundFromInside(limit: nat, b: RateBucket, ts: seq<Instant>, lo: int, hi: int)
    requires 0 < limit < U32_MAX && NonDecreasing(ts)
    requires forall i :: 0 <= i < |ts| ==> lo <= ts[i] && b.windowStart <= ts[i]
    ensures AdmittedOf(limit, Some(b), ts, lo, hi)
            <= Left(limit, b.count) + limit * Windows(Max(b.windowStart + RATE_WINDOW, lo), hi)
    decreases |ts|
  {
    var from := Max(b.windowStart + RATE_WINDOW, lo);
    if ts != [] {
      hide Windows;
      var x := ts[0];
      var b' := Hit(Some(b), x);
      BoundFromInside(limit, b', ts[1..], lo, hi);
      if x - b.windowStart >= RATE_WINDOW {
        assert b' == RateBucket(x, 1);
        if x >= hi { NothingAfter(limit, Some(b), ts, lo, hi); } else { WindowOpens(limit, from, x, hi); }
      } else {
        assert b'.windowStart == b.windowStart;
      }
    }
  }

  function Max(a: int, b: int): int { if a < b then b else a }

  lemma {:induction false} NothingAfter(limit: nat, b: Option<RateBucket>, ts: seq<Instant>, lo: int, hi: int)
    requires forall i :: 0 <= i < |ts| ==> hi <= ts[i]
    ensures AdmittedOf(limit, b, ts, lo, hi) == 0
    decreases |ts|
  {
    if ts != [] { NothingAfter(limit, Some(Hit(b, ts[0])), ts[1..], lo, hi); }
  }

  /** From before the interval: the window open at its start has already admitted a request. */
  lemma {:induction false} BoundFromBefore(limit: nat, b: Option<RateBucket>, ts: seq<Instant>, lo: int, k: nat)
    requires 0 < limit < U32_MAX && NonDecreasing(ts)
    requires b.Some? ==>
               && b.value.count >= 1 && b.value.windowStart < lo
               && forall i :: 0 <= i < |ts| ==> b.value.windowStart <= ts[i]
    ensures AdmittedOf(limit, b, ts, lo, lo + k * RATE_WINDOW) <= (k + 1) * limit - 1
    decreases |ts|
  {
    var hi := lo + k * RATE_WINDOW;
    WindowsOf(lo, k);
    TimesLimit(limit, k, k);
    hide Windows;
    if ts != [] {
      var x := ts[0];
      var b' := Hit(b, x);
      if x < lo {
        BoundFromBefore(limit, Some(b'), ts[1..], lo, k);
      } else if b.Some? {
        BoundFromInside(limit, b.value, ts, lo, hi);
        WindowsMonotone(lo, Max(b.value.windowStart + RATE_WINDOW, lo), hi);
        TimesLimit(limit, Windows(Max(b.value.windowStart + RATE_WINDOW, lo), hi), k);
      } else {
        // A request that opens the first window is the first of a spent one.
        var unused := RateBucket(x, 0);
        assert Hit(None, x) == Hit(Some(unused), x);
        BoundFromInside(limit, b', ts[1..], lo, hi);
        if x >= hi {
          NothingAfter(limit, b, ts, lo, hi);
        } else {
          WindowOpens(limit, lo, x, hi);
        }
      }
    }
  }

  /**
   In any interval of `k` windows' length a token gets at most `(k + 1) * limit - 1` requests
   admitted, whatever other tokens do.
   */
  lemma SlidingBound(limit: nat, run: seq<Request>, token: TokenHash, lo: int, k: nat)
    requires 0 < limit < U32_MAX && NonDecreasing(Times(run, token))
    ensures AdmittedIn(limit, map[], run, token, lo, lo + k * RATE_WINDOW) <= (k + 1) * limit - 1
  {
    TokensAreIndependent(limit, map[], run, token, lo, lo + k * RATE_WINDOW);
    BoundFromBefore(limit, None, Times(run, token), lo, k);
  }

  // ---------------------------------------------------------------- the bound is met

  function Burst(token: TokenHash, t: Instant, n: nat): seq<Request>
  {
    seq(n, _ => Request(token, t))
  }

  function Repeat(t: Instant, n: nat): seq<Instant> { seq(n, _ => t) }

  lemma {:induction false} BurstTimes(token: TokenHash, t: Instant, n: nat)
    ensures Times(Burst(token, t, n), token) == Repeat(t, n)
  {
    if n > 0 {
      assert Burst(token, t, n)[1..] == Burst(token, t, n - 1);
      BurstTimes(token, t, n - 1);
    }
  }

  lemma {:induction false} TimesAppend(a: seq<Request>, b: seq<Request>, token: TokenHash)
    ensures Times(a + b, token) == Times(a, token) + Times(b, token)
  {
    if a == [] {
      assert a + b == b && [] + Times(b, token) == Times(b, token);
    } else {
      assert (a + b)[1..] == a[1..] + b;
      TimesAppend(a[1..], b, token);
      var head := if a[0].token == token then [a[0].now] else [];
      assert head + (Times(a[1..], token) + Times(b, token)) == head + Times(a[1..], token) + Times(b, token);
    }
  }

  /** `n` requests at one time in an open window with room for them are all admitted. */
  lemma {:induction false} BurstFits(limit: nat, b: RateBucket, t: Instant, n: nat, rest: seq<Instant>, lo: int, hi: int)
    requires limit <= U32_MAX && b.count + n <= limit && b.windowStart <= t < b.windowStart + RATE_WINDOW
    requires Within(t, lo, hi)
    ensures AdmittedOf(limit, Some(b), Repeat(t, n) + rest, lo, hi)
            == n + AdmittedOf(limit, Some(b.(count := b.count + n)), rest, lo, hi)
    decreases n
  {
    var ts := Repeat(t, n) + rest;
    if n == 0 {
      assert ts == rest;
    } else {
      assert ts[1..] == Repeat(t, n - 1) + rest;
      BurstFits(limit, b.(count := b.count + 1), t, n - 1, rest, lo, hi);
    }
  }

  /** One full burst at the start of each of `k` consecutive windows. */
  function Bursts(token: TokenHash, t: Instant, n: nat, k: nat): seq<Request>
    decreases k
  {
    if k == 0 then [] else Burst(token, t, n) + Bursts(token, t + RATE_WINDOW, n, k - 1)
  }

  lemma BurstsTimes(token: TokenHash, t: Instant, n: nat, k: nat)
    requires n > 0 && k > 0
    ensures Times(Bursts(token, t, n, k), token) == [t] + (Repeat(t, n - 1) + Times(Bursts(token, t + RATE_WINDOW, n, k - 1), token))
  {
    hide Times, Burst, Repeat;
    var later := Bursts(token, t + RATE_WINDOW, n, k - 1);
    TimesAppend(Burst(token, t, n), later, token);
    BurstTimes(token, t, n);
    RepeatNext(t, n);
    assert ([t] + Repeat(t, n - 1)) + Times(later, token) == [t] + (Repeat(t, n - 1) + Times(later, token));
  }

  lemma RepeatNext(t: Instant, n: nat)
    requires n > 0
    ensures Repeat(t, n) == [t] + Repeat(t, n - 1)
  {}

  lemma OneLess(k: nat, n: nat)
    requires k > 0
    ensures k * n == n + (k - 1) * n && (k - 1) * n >= 0
  {}

  lemma AdmittedFirst(limit: nat, b: Option<RateBucket>, x: Instant, rest: seq<Instant>, lo: int, hi: int)
    ensures AdmittedOf(limit, b, [x] + rest, lo, hi)
            == (if Within(x, lo, hi) && Hit(b, x).count <= limit then 1 else 0) + AdmittedOf(limit, Some(Hit(b, x)), rest, lo, hi)
  {
    assert ([x] + rest)[1..] == rest;
  }

  lemma {:induction false} BurstsAdmitted(limit: nat, b: RateBucket, token: TokenHash, t: Instant, k: nat, lo: int, hi: int)
    requires 0 < limit <= U32_MAX && t - b.windowStart >= RATE_WINDOW
    requires lo <= t && t + k * RATE_WINDOW < hi + RATE_WINDOW
    ensures AdmittedOf(limit, Some(b), Times(Bursts(token, t, limit, k), token), lo, hi) == k * limit
    decreases k
  {
    if k > 0 {
      hide Burst, Bursts, Repeat, Times, AdmittedOf;
      var more := Times(Bursts(token, t + RATE_WINDOW, limit, k - 1), token);
      BurstsTimes(token, t, limit, k);
      OneLess(k, RATE_WINDOW);
      OneLess(k, limit);
      AdmittedFirst(limit, Some(b), t, Repeat(t, limit - 1) + more, lo, hi);
      BurstFits(limit, RateBucket(t, 1), t, limit - 1, more, lo, hi);
      BurstsAdmitted(limit, RateBucket(t, limit), token, t + RATE_WINDOW, k - 1, lo, hi);
    } else {
      assert Bursts(token, t, limit, 0) == [];
    }
  }

  /** A run that opens a window, fills it at its very end, and then fills `k` more at once. */
  function GreedyRun(token: TokenHash, limit: nat, k: nat): seq<Request>
    requires limit > 0
  {
    Burst(token, 0, 1) + (Burst(token, RATE_WINDOW - 1, limit - 1) + Bursts(token, RATE_WINDOW, limit, k))
  }

  /** The sliding bound cannot be lowered. */
  lemma SlidingBoundIsMet(token: TokenHash, limit: nat, k: nat)
    requires 0 < limit <= U32_MAX
    ensures var lo := RATE_WINDOW - 1;
            AdmittedIn(limit, map[], GreedyRun(token, limit, k), token, lo, lo + k * RATE_WINDOW)
            == if k == 0 then 0 else (k + 1) * limit - 1
  {
    var lo := RATE_WINDOW - 1;
    var hi := lo + k * RATE_WINDOW;
    var run, later := GreedyRun(token, limit, k), Bursts(token, RATE_WINDOW, limit, k);
    TokensAreIndependent(limit, map[], run, token, lo, hi);
    TimesAppend(Burst(token, 0, 1), Burst(token, lo, limit - 1) + later, token);
    TimesAppend(Burst(token, lo, limit - 1), later, token);
    BurstTimes(token, 0, 1);
    BurstTimes(token, lo, limit - 1);
    var ts := Times(run, token);
    var tail := Repeat(lo, limit - 1) + Times(later, token);
    assert ts == Repeat(0, 1) + tail;
    assert ts[0] == 0 && ts[1..] == tail;
    if k == 0 {
      NoneIn(limit, None, ts, lo);
    } else {
      assert k * RATE_WINDOW >= RATE_WINDOW;
      BurstFits(limit, RateBucket(0, 1), lo, limit - 1, Times(later, token), lo, hi);
      BurstsAdmitted(limit, RateBucket(0, limit), token, RATE_WINDOW, k, lo, hi);
    }
  }

  lemma {:induction false} NoneIn(limit: nat, b: Option<RateBucket>, ts: seq<Instant>, lo: int)
    ensures AdmittedOf(limit, b, ts, lo, lo) == 0
    decreases |ts|
  {
    if ts != [] { NoneIn(limit, Some(Hit(b, ts[0])), ts[1..], lo); }
  }

  // ---------------------------------------------------------------- when the bound fails

  /** Limits zero and `u32::MAX` admit everything: zero by design, the maximum by saturation. */
  lemma {:induction false} ExtremeLimitsAdmitAll(limit: nat, m: Buckets, token: TokenHash, t: Instant, n: nat)
    requires limit == 0 || limit == U32_MAX
    requires forall h :: h in m ==> m[h].count <= U32_MAX
    ensures AdmittedIn(limit, m, Burst(token, t, n), token, t, t + RATE_WINDOW) == n
    decreases n
  {
    if n > 0 {
      var run := Burst(token, t, n);
      assert run[1..] == Burst(token, t, n - 1);
      ExtremeLimitsAdmitAll(limit, After(limit, m, run[0]), token, t, n - 1);
    }
  }

  /** How many of the token's requests a run admits in the `k` windows' length from `lo` on. */
  function AdmittedFrom(limit: nat, run: seq<Request>, token: TokenHash, lo: int, k: nat): nat
  {
    AdmittedIn(limit, map[], run, token, lo, lo + k * RATE_WINDOW)
  }

  /** The sliding bound as a property of a limit. */
  ghost predicate Bounded(limit: nat)
  {
    forall run, token, lo, k: nat :: NonDecreasing(Times(run, token)) ==>
      AdmittedFrom(limit, run, token, lo, k) <= (k + 1) * limit
  }

  /** The limiter limits exactly when its `u32` budget is neither zero nor the largest one. */
  lemma BoundedIff(limit: nat)
    requires limit <= U32_MAX
    ensures Bounded(limit) <==> 0 < limit < U32_MAX
  {
    if 0 < limit < U32_MAX {
      forall run, token, lo, k: nat | NonDecreasing(Times(run, token))
        ensures AdmittedFrom(limit, run, token, lo, k) <= (k + 1) * limit
      {
        SlidingBound(limit, run, token, lo, k);
      }
    } else {
      var token: TokenHash, n := [], 2 * limit + 1;
      var run := Burst(token, 0, n);
      ExtremeLimitsAdmitAll(limit, map[], token, 0, n);
      BurstTimes(token, 0, n);
      assert NonDecreasing(Times(run, token));
      assert AdmittedFrom(limit, run, token, 0, 1) == n;
    }
  }
}
