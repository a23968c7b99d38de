/** The in-memory fixed-window rate limiter. */
module RateLimit {
  import opened Basics

  datatype Bucket = Bucket(count: nat, windowStart: real)

  datatype Verdict = Verdict(allowed: bool, retryAfter: int)

  const PASS := Verdict(true, 0)

  /** The bucket is missing or its window is over. */
  predicate IsOver(b: Option<Bucket>, window: int, now: real) {
    b.None? || now - b.value.windowStart >= window as real
  }

  /** `int(window_s - (now - window_start)) + 1`, at least one. The remaining time is not negative
      where this is used, so truncation is rounding down. */
  function RetryAfter(b: Bucket, window: int, now: real): int {
    Max((window as real - (now - b.windowStart)).Floor + 1, 1)
  }

  /** The bucket that counts a hit now, the hit included. */
  function Counted(b: Option<Bucket>, window: int, now: real): Bucket {
    if IsOver(b, window, now) then Bucket(1, now) else b.value.(count := b.value.count + 1)
  }

  function HitVerdict(b: Option<Bucket>, limit: int, window: int, now: real): Verdict {
    var counted := Counted(b, window, now);
    if counted.count <= limit then PASS else Verdict(false, RetryAfter(counted, window, now))
  }

  function PeekVerdict(b: Option<Bucket>, limit: int, window: int, now: real): Verdict {
    if IsOver(b, window, now) || b.value.count < limit then PASS else Verdict(false, RetryAfter(b.value, window, now))
  }

  type Key = (string, string)

  class RateLimiter {
    var buckets: map<Key, Bucket>

    constructor ()
      ensures buckets == map[]
    {
      buckets := map[];
    }

    function BucketOf(key: Key): Option<Bucket>
      reads this
    {
      if key in buckets then Some(buckets[key]) else None
    }

    /** `hit`, under the lock. */
    method Hit(key: Key, limit: int, window: int, now: real) returns (v: Verdict)
      modifies this
      ensures v == HitVerdict(old(BucketOf(key)), limit, window, now)
      ensures buckets == old(buckets)[key := Counted(old(BucketOf(key)), window, now)]
    {
      if key !in buckets || now - buckets[key].windowStart >= window as real {
        buckets := buckets[key := Bucket(0, now)];
      }
      buckets := buckets[key := buckets[key].(count := buckets[key].count + 1)];
      if buckets[key].count <= limit { return Verdict(true, 0); }
      var retryAfter := (window as real - (now - buckets[key].windowStart)).Floor + 1;
      return Verdict(false, if retryAfter >= 1 then retryAfter else 1);
    }

    /** `peek` records nothing. */
    method Peek(key: Key, limit: int, window: int, now: real) returns (v: Verdict)
      ensures v == PeekVerdict(BucketOf(key), limit, window, now)
    {
      if key !in buckets || now - buckets[key].windowStart >= window as real { return Verdict(true, 0); }
      if buckets[key].count < limit { return Verdict(true, 0); }
      var retryAfter := (window as real - (now - buckets[key].windowStart)).Floor + 1;
      return Verdict(false, if retryAfter >= 1 then retryAfter else 1);
    }

    method Reset()
      modifies this
      ensures buckets == map[]
    {
      buckets := map[];
    }
  }

  /** A peek says what a hit at that instant would say, exactly when the limit is positive or the
      window is still open. */
  lemma PeekForetellsHitIff(b: Option<Bucket>, limit: int, window: int, now: real)
    ensures PeekVerdict(b, limit, window, now) == HitVerdict(b, limit, window, now) <==>
              limit >= 1 || !IsOver(b, window, now)
  {
  }

  /** Waiting as told, with no hit in between, always succeeds for a positive limit. */
  lemma WaitingSucceeds(b: Option<Bucket>, limit: int, window: int, now: real, later: real)
    requires limit >= 1 && !HitVerdict(b, limit, window, now).allowed
    requires later >= now + HitVerdict(b, limit, window, now).retryAfter as real
    ensures HitVerdict(Some(Counted(b, window, now)), limit, window, later) == PASS
  {
    var rest := window as real - (now - b.value.windowStart);
    assert rest < rest.Floor as real + 1.0;
  }

  /** And it is hardly longer than needed: a hit more than a second earlier is still refused, and the
      wait is at least a second and at most one more than the window. */
  lemma WaitIsNeeded(b: Option<Bucket>, limit: int, window: int, now: real, later: real)
    requires !HitVerdict(b, limit, window, now).allowed && (b.Some? ==> b.value.windowStart <= now)
    requires now <= later < now + (HitVerdict(b, limit, window, now).retryAfter - 1) as real
    ensures !HitVerdict(Some(Counted(b, window, now)), limit, window, later).allowed
  {
  }

  lemma WaitIsBounded(b: Option<Bucket>, limit: int, window: int, now: real)
    requires !HitVerdict(b, limit, window, now).allowed && (b.Some? ==> b.value.windowStart <= now)
    ensures 1 <= HitVerdict(b, limit, window, now).retryAfter <= Max(window, 0) + 1
  {
  }

  /** A window that is not positive limits nothing. */
  lemma EmptyWindowLimitsNothing(b: Option<Bucket>, limit: int, window: int, now: real)
    requires b.Some? ==> b.value.windowStart <= now
    ensures window <= 0 && limit >= 1 ==> HitVerdict(b, limit, window, now) == PASS
  {
  }

  // ----------------------------------------------------------- whole runs

  ghost predicate IsAscending(times: seq<real>) { forall i, j | 0 <= i < j < |times| :: times[i] <= times[j] }

  /** The bucket was opened before all of these times. */
  ghost predicate OpenedBefore(b: Option<Bucket>, times: seq<real>) {
    b.Some? ==> forall k | 0 <= k < |times| :: b.value.windowStart <= times[k]
  }

  /** How many of the hits at these times, on one key, are allowed between `lo` and `hi` inclusive. */
  function AllowedIn(b: Option<Bucket>, limit: int, window: int, times: seq<real>, lo: real, hi: real): nat
    decreases |times|
  {
    if times == [] then 0
    else
      (if lo <= times[0] <= hi && HitVerdict(b, limit, window, times[0]).allowed then 1 else 0)
      + AllowedIn(Some(Counted(b, window, times[0])), limit, window, times[1..], lo, hi)
  }

  lemma {:induction false} NothingCountsAfter(b: Option<Bucket>, limit: int, window: int, times: seq<real>, lo: real,
                                              hi: real)
    requires forall k | 0 <= k < |times| :: times[k] > hi
    ensures AllowedIn(b, limit, window, times, lo, hi) == 0
    decreases |times|
  {
    if times != [] {
      NothingCountsAfter(Some(Counted(b, window, times[0])), limit, window, times[1..], lo, hi);
    }
  }

  /** What a bucket can still let through between `lo` and a window later. */
  function Remaining(b: Option<Bucket>, limit: nat, window: int, lo: real): nat {
    if b.None? || b.value.windowStart <= lo - window as real then 2 * limit
    else if b.value.windowStart <= lo then Max(0, limit - b.value.count) + limit
    else Max(0, limit - b.value.count)
  }

  lemma {:induction false} RemainingBoundsHits(b: Option<Bucket>, limit: nat, window: int, times: seq<real>, lo: real)
    requires window > 0 && IsAscending(times) && OpenedBefore(b, times)
    ensures AllowedIn(b, limit, window, times, lo, lo + window as real) <= Remaining(b, limit, window, lo)
    decreases |times|
  {
    var hi := lo + window as real;
    if times != [] {
      var t, rest := times[0], times[1..];
      var next := Counted(b, window, t);
      assert forall k | 0 <= k < |rest| :: rest[k] == times[k + 1] && t <= rest[k];
      if t > hi {
        NothingCountsAfter(b, limit, window, times, lo, hi);
      } else {
        RemainingBoundsHits(Some(next), limit, window, rest, lo);
      }
    }
  }

  /** Whatever the traffic on a key, no span as long as the window, ends included, contains more
      than twice the limit of allowed hits. */
  lemma AtMostTwiceTheLimit(limit: nat, window: int, times: seq<real>, lo: real)
    requires window > 0 && IsAscending(times)
    ensures AllowedIn(None, limit, window, times, lo, lo + window as real) <= 2 * limit
  {
    RemainingBoundsHits(None, limit, window, times, lo);
  }

  /** Twice the limit is reached: a burst at the start of the span and one at its end. */
  lemma TwiceTheLimitHappens(limit: nat, window: int, lo: real)
    requires window > 0
    ensures var times := seq(limit, _ => lo) + seq(limit, _ => lo + window as real);
            IsAscending(times) && AllowedIn(None, limit, window, times, lo, lo + window as real) == 2 * limit
  {
    var hi := lo + window as real;
    var first, second := seq(limit, _ => lo), seq(limit, _ => hi);
    if limit > 0 {
      BurstThen(Some(Bucket(limit, lo)), limit, window, [], hi, limit, lo, hi);
      assert second + [] == second;
      BurstThen(None, limit, window, second, lo, limit, lo, hi);
    }
  }

  /** `n` hits at one instant that opens a window are all allowed, if the limit lets them. */
  lemma {:induction false} BurstThen(b: Option<Bucket>, limit: nat, window: int, rest: seq<real>, t: real, n: nat,
                                     lo: real, hi: real)
    requires window > 0 && lo <= t <= hi && 0 < n <= limit && IsOver(b, window, t)
    ensures AllowedIn(b, limit, window, seq(n, _ => t) + rest, lo, hi) == n
              + AllowedIn(Some(Bucket(n, t)), limit, window, rest, lo, hi)
  {
    var times := seq(n, _ => t) + rest;
    assert times[1..] == seq(n - 1, _ => t) + rest;
    BurstGoesOn(1, limit, window, rest, t, n - 1, lo, hi);
  }

  lemma {:induction false} BurstGoesOn(c: nat, limit: nat, window: int, rest: seq<real>, t: real, n: nat, lo: real,
                                       hi: real)
    requires window > 0 && lo <= t <= hi && c + n <= limit
    ensures AllowedIn(Some(Bucket(c, t)), limit, window, seq(n, _ => t) + rest, lo, hi)
            == n + AllowedIn(Some(Bucket(c + n, t)), limit, window, rest, lo, hi)
    decreases n
  {
    var times := seq(n, _ => t) + rest;
    if n == 0 {
      assert times == rest;
    } else {
      assert times[1..] == seq(n - 1, _ => t) + rest;
      BurstGoesOn(c + 1, limit, window, rest, t, n - 1, lo, hi);
    }
  }
}
