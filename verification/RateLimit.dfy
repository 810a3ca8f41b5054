/**
 The limiters: token buckets refilled a whole burst at a time, a bounded cache of such buckets, and
 the plain counter that limits connections per container.  Clock readings are parameters; a call
 may read the clock up to three times.
 */
module RateLimit {

  /** The two numbers of a bucket; `lastTime` zero means never used. */
  datatype Bucket = Bucket(tokens: int, lastTime: int)

  const EMPTY: Bucket := Bucket(0, 0)

  class TokenBucket {
    var tokens: int
    var lastTime: int

    constructor ()
      ensures Value() == EMPTY
    {
      tokens, lastTime := 0, 0;
    }

    ghost function Value(): Bucket
      reads this
    {
      Bucket(tokens, lastTime)
    }
  }

  /** The clock readings of one call. */
  datatype Readings = Readings(first: int, second: int, third: int) {
    predicate Valid() {
      0 < first <= second <= third
    }
  }

  // ----- one bucket on values

  /** Integer division rounding toward zero, as the host divides when the clock has gone back. */
  function TruncDiv(a: int, d: int): int
    requires d > 0
  {
    if a >= 0 then a / d else -(-a / d)
  }

  function Refills(b: Bucket, now: int, refillTime: int): int
    requires refillTime > 0
  {
    TruncDiv(now - b.lastTime, refillTime)
  }

  /** The bucket as a call finds it, refilled up to the present. */
  function Topped(b: Bucket, burst: int, refillTime: int, t: Readings): Bucket
    requires refillTime > 0
  {
    var b1 := if b.lastTime == 0 then Bucket(burst, t.first) else b;
    var r := Refills(b1, t.second, refillTime);
    var b2 := Bucket(b1.tokens + r * burst, b1.lastTime + r * refillTime);
    if b2.tokens >= burst then Bucket(burst, t.third) else b2
  }

  predicate Grants(b: Bucket, n: int, burst: int, refillTime: int, t: Readings)
    requires refillTime > 0
  {
    n <= Topped(b, burst, refillTime, t).tokens
  }

  function After(b: Bucket, n: int, burst: int, refillTime: int, t: Readings): Bucket
    requires refillTime > 0
  {
    var b' := Topped(b, burst, refillTime, t);
    if n <= b'.tokens then Bucket(b'.tokens - n, b'.lastTime) else b'
  }

  function Tokens(b: Bucket, burst: int, refillTime: int, now: int): int
    requires refillTime > 0
  {
    var available := b.tokens + Refills(b, now, refillTime) * burst;
    if available < burst then available else burst
  }

  class TimeLimiter {
    const burst: int
    const refillTime: int

    /** The refill time is given in seconds and kept in microseconds. */
    constructor (burst: int, refillSeconds: int)
      ensures this.burst == burst && refillTime == refillSeconds * 1_000_000
    {
      this.burst, refillTime := burst, refillSeconds * 1_000_000;
    }

    method FillBucket(b: TokenBucket, now: int)
      modifies b
      ensures b.Value() == Bucket(burst, now)
    {
      b.lastTime := now;
      b.tokens := burst;
    }

    method AllowN(b: TokenBucket, n: int, t: Readings) returns (ok: bool)
      requires refillTime > 0
      modifies b
      ensures ok <==> Grants(old(b.Value()), n, burst, refillTime, t)
      ensures b.Value() == After(old(b.Value()), n, burst, refillTime, t)
    {
      if b.lastTime == 0 {
        FillBucket(b, t.first);
      }
      var refill := TruncDiv(t.second - b.lastTime, refillTime);
      b.tokens := b.tokens + refill * burst;
      b.lastTime := b.lastTime + refill * refillTime;
      if b.tokens >= burst {
        FillBucket(b, t.third);
      }
      if n > b.tokens {
        return false;
      }
      b.tokens := b.tokens - n;
      return true;
    }
  }

  /** On a bucket in use, a request is granted exactly when it asks for no more than the bucket shows. */
  lemma GrantedIffShown(b: Bucket, n: int, burst: int, refillTime: int, now: int)
    requires refillTime > 0 && burst >= 0 && 0 < b.lastTime <= now && 0 <= b.tokens <= burst
    ensures Grants(b, n, burst, refillTime, Readings(now, now, now)) <==> n <= Tokens(b, burst, refillTime, now)
  {
    RefillsNotNegative(b, now, refillTime);
  }

  /** The division of the host: odd in its first argument, with a remainder below the divisor. */
  lemma RoundsTowardZero(a: int, d: int)
    requires d > 0 && a >= 0
    ensures TruncDiv(-a, d) == -TruncDiv(a, d)
    ensures 0 <= a - TruncDiv(a, d) * d < d
  {
    if a == 0 {
      DivIsZero(0, d);
    }
    var q, m := a / d, a % d;
    assert a == q * d + m;
  }

  lemma RefillsInPeriod(b: Bucket, now: int, refillTime: int)
    requires refillTime > 0 && b.lastTime <= now
    ensures if refillTime <= now - b.lastTime then Refills(b, now, refillTime) >= 1
            else Refills(b, now, refillTime) == 0
  {
    hide TruncDiv;
    if refillTime <= now - b.lastTime {
      DivAtLeastOne(now - b.lastTime, refillTime);
    } else {
      DivIsZero(now - b.lastTime, refillTime);
    }
  }

  /**
   Which requests pass on a bucket in use: within one refill time of the last refill those the
   remaining tokens cover, later those a whole burst covers.  A bucket that is due or full is filled.
   */
  lemma PassesExactly(b: Bucket, n: int, burst: int, refillTime: int, t: Readings)
    requires refillTime > 0 && burst >= 0 && 0 < b.lastTime <= t.second && 0 <= b.tokens <= burst
    ensures var due := refillTime <= t.second - b.lastTime;
            && (Grants(b, n, burst, refillTime, t) <==> n <= if due then burst else b.tokens)
            && Topped(b, burst, refillTime, t) == (if due || b.tokens == burst then Bucket(burst, t.third) else b)
  {
    hide Refills;
    RefillsInPeriod(b, t.second, refillTime);
    var r := Refills(b, t.second, refillTime);
    if r >= 1 {
      Monotone(burst, 0, r - 1);
      assert burst * (1 + (r - 1)) == r * burst;
    }
  }

  lemma DivAtLeastOne(a: int, d: int)
    requires 0 < d <= a
    ensures TruncDiv(a, d) >= 1
  {
    QuotientBelow(1, 0, a / d, a % d, d);
  }

  lemma DivIsZero(a: int, d: int)
    requires 0 <= a < d
    ensures TruncDiv(a, d) == 0
  {
  }

  lemma UnusedIsFilled(burst: int, refillTime: int, now: int)
    requires refillTime > 0 && now > 0
    ensures Topped(EMPTY, burst, refillTime, Readings(now, now, now)).tokens == burst
  {
    hide Refills;
    NoRefillYet(burst, refillTime, now);
  }

  lemma NoRefillYet(burst: int, refillTime: int, now: int)
    requires refillTime > 0
    ensures Refills(Bucket(burst, now), now, refillTime) == 0
  {
    hide TruncDiv;
    DivIsZero(0, refillTime);
  }

  lemma UnusedShows(burst: int, refillTime: int, now: int)
    requires refillTime > 0 && burst >= 0 && now > 0
    ensures Tokens(EMPTY, burst, refillTime, now) == if refillTime <= now then burst else 0
  {
    hide Refills;
    RefillsOfUnused(refillTime, now);
    var r := Refills(EMPTY, now, refillTime);
    if refillTime <= now {
      Monotone(burst, 0, r - 1);
      assert burst * (1 + (r - 1)) == r * burst;
    }
  }

  lemma RefillsOfUnused(refillTime: int, now: int)
    requires refillTime > 0 && now > 0
    ensures if refillTime <= now then Refills(EMPTY, now, refillTime) >= 1 else Refills(EMPTY, now, refillTime) == 0
  {
    hide TruncDiv;
    if refillTime <= now {
      DivAtLeastOne(now, refillTime);
    } else {
      DivIsZero(now, refillTime);
    }
  }

  /**
   A bucket never used is filled by its first call, but shows itself empty until the clock passes
   one refill time: only from then on, or if there are no tokens to show, are the two the same.
   */
  lemma UnusedBucketShowsLess(burst: int, refillTime: int, now: int)
    requires refillTime > 0 && burst >= 0 && now > 0
    ensures (forall n :: Grants(EMPTY, n, burst, refillTime, Readings(now, now, now))
                         <==> n <= Tokens(EMPTY, burst, refillTime, now))
            <==> burst == 0 || refillTime <= now
  {
    hide Topped, Tokens;
    UnusedIsFilled(burst, refillTime, now);
    UnusedShows(burst, refillTime, now);
    assert Grants(EMPTY, burst, burst, refillTime, Readings(now, now, now));
  }

  // ----- every sequence of calls

  datatype Call = Call(n: nat, t: Readings)

  function BucketAfter(calls: seq<Call>, burst: int, refillTime: int): Bucket
    requires refillTime > 0
  {
    if calls == [] then EMPTY
    else
      var c := calls[|calls| - 1];
      After(BucketAfter(calls[..|calls| - 1], burst, refillTime), c.n, burst, refillTime, c.t)
  }

  function Granted(calls: seq<Call>, burst: int, refillTime: int): nat
    requires refillTime > 0
  {
    if calls == [] then 0
    else
      var c, before := calls[|calls| - 1], BucketAfter(calls[..|calls| - 1], burst, refillTime);
      Granted(calls[..|calls| - 1], burst, refillTime) + if Grants(before, c.n, burst, refillTime, c.t) then c.n else 0
  }

  /** A positive clock that never goes back. */
  predicate Ordered(calls: seq<Call>) {
    && (forall i :: 0 <= i < |calls| ==> calls[i].t.Valid())
    && (forall i :: 0 < i < |calls| ==> calls[i - 1].t.third <= calls[i].t.first)
  }

  lemma RefillsNotNegative(b: Bucket, now: int, refillTime: int)
    requires refillTime > 0 && b.lastTime <= now
    ensures Refills(b, now, refillTime) >= 0
    ensures b.lastTime + Refills(b, now, refillTime) * refillTime <= now
  {
  }

  /** Whole bursts that fit between `t0` and `t`. */
  function Periods(t0: int, t: int, refillTime: int): int
    requires refillTime > 0
  {
    (t - t0) / refillTime
  }

  lemma PeriodsShift(t0: int, t: int, r: int, refillTime: int)
    requires refillTime > 0
    ensures Periods(t0, t + r * refillTime, refillTime) == Periods(t0, t, refillTime) + r
  {
    DivShift(t - t0, r, refillTime);
  }

  lemma MulAtLeast(k: int, d: int)
    requires k >= 1 && d > 0
    ensures k * d >= d
  {
  }

  lemma QuotientBelow(q: int, m: int, q': int, m': int, d: int)
    requires 0 <= m < d && 0 <= m' < d && q * d + m <= q' * d + m'
    ensures q <= q'
  {
    if q > q' {
      MulAtLeast(q - q', d);
    }
  }

  lemma DivShift(x: int, r: int, d: int)
    requires d > 0
    ensures (x + r * d) / d == x / d + r
  {
    var y := x + r * d;
    var q, m, q', m' := x / d, x % d, y / d, y % d;
    assert (q + r) * d == q * d + r * d;
    QuotientBelow(q + r, m, q', m', d);
    QuotientBelow(q', m', q + r, m, d);
  }

  lemma PeriodsMonotone(t0: int, s: int, t: int, refillTime: int)
    requires refillTime > 0 && s <= t
    ensures Periods(t0, s, refillTime) <= Periods(t0, t, refillTime)
  {
    var x, y := s - t0, t - t0;
    QuotientBelow(x / refillTime, x % refillTime, y / refillTime, y % refillTime, refillTime);
  }

  /** What holds between calls: `granted` so far, first reading `t0`, latest reading `now`. */
  predicate Within(b: Bucket, granted: int, burst: int, refillTime: int, t0: int, now: int)
    requires refillTime > 0
  {
    && 0 < t0 <= b.lastTime <= now
    && 0 <= b.tokens <= burst
    && granted + b.tokens <= burst * (1 + Periods(t0, b.lastTime, refillTime))
  }

  lemma CallKeepsWithin(b: Bucket, granted: int, burst: int, refillTime: int, t0: int, now: int, c: Call)
    requires refillTime > 0 && burst >= 0 && Within(b, granted, burst, refillTime, t0, now)
    requires c.t.Valid() && now <= c.t.first
    ensures var granted' := granted + if Grants(b, c.n, burst, refillTime, c.t) then c.n else 0;
            Within(After(b, c.n, burst, refillTime, c.t), granted', burst, refillTime, t0, c.t.third)
  {
    hide TruncDiv, Periods;
    var r := Refills(b, c.t.second, refillTime);
    RefillsNotNegative(b, c.t.second, refillTime);
    assert r * burst >= 0;
    var last := b.lastTime + r * refillTime;
    PeriodsShift(t0, b.lastTime, r, refillTime);
    PeriodsMonotone(t0, last, c.t.third, refillTime);
    var before, mid := Periods(t0, b.lastTime, refillTime), Periods(t0, last, refillTime);
    var end := Periods(t0, c.t.third, refillTime);
    Scale(burst, before, r, mid);
    Monotone(burst, mid, end);
  }

  lemma Scale(burst: int, before: int, r: int, mid: int)
    requires mid == before + r
    ensures burst * (1 + mid) == burst * (1 + before) + r * burst
  {
  }

  lemma Monotone(burst: int, a: int, b: int)
    requires burst >= 0 && a <= b
    ensures burst * (1 + a) <= burst * (1 + b)
  {
  }

  /**
   However the calls fall, no more is granted by the time of the last reading than one burst plus
   one burst for every whole refill time since the first reading; and the bucket never holds more
   than a burst or less than nothing.
   */
  lemma {:induction false} GrantBound(calls: seq<Call>, burst: int, refillTime: int)
    requires refillTime > 0 && burst >= 0 && calls != [] && Ordered(calls)
    ensures var t0, now := calls[0].t.first, calls[|calls| - 1].t.third;
            Within(BucketAfter(calls, burst, refillTime), Granted(calls, burst, refillTime), burst, refillTime, t0, now)
    ensures Granted(calls, burst, refillTime) <=
            burst * (1 + Periods(calls[0].t.first, calls[|calls| - 1].t.third, refillTime))
  {
    var n := |calls| - 1;
    var t0, now, c := calls[0].t.first, calls[n].t.third, calls[n];
    var b := BucketAfter(calls[..n], burst, refillTime);
    if n > 0 {
      GrantBound(calls[..n], burst, refillTime);
      CallKeepsWithin(b, Granted(calls[..n], burst, refillTime), burst, refillTime, t0, calls[n - 1].t.third, c);
    } else {
      assert calls[..0] == [];
      assert Within(Bucket(burst, t0), 0, burst, refillTime, t0, t0);
      CallKeepsWithin(Bucket(burst, t0), 0, burst, refillTime, t0, t0, c);
    }
    var last := BucketAfter(calls, burst, refillTime).lastTime;
    PeriodsMonotone(t0, last, now, refillTime);
    Monotone(burst, Periods(t0, last, refillTime), Periods(t0, now, refillTime));
  }

  lemma FirstCall(c: Call, burst: int, refillTime: int)
    requires refillTime > 0 && burst >= 0 && c.t.Valid() && c.t.third < c.t.first + refillTime
    ensures After(EMPTY, c.n, burst, refillTime, c.t) ==
            Bucket(if c.n <= burst then burst - c.n else burst, c.t.third)
    ensures Grants(EMPTY, c.n, burst, refillTime, c.t) <==> c.n <= burst
  {
    hide Refills;
    RefillsInPeriod(Bucket(burst, c.t.first), c.t.second, refillTime);
  }

  /**
   Within one refill time of the first call, the requests that pass are exactly those that keep the
   total within one burst; refused ones cost nothing.
   */
  lemma {:induction false} WithinOnePeriod(calls: seq<Call>, burst: int, refillTime: int)
    requires refillTime > 0 && burst >= 0 && calls != [] && Ordered(calls)
    requires calls[|calls| - 1].t.third < calls[0].t.first + refillTime
    ensures var b := BucketAfter(calls, burst, refillTime);
            && b.tokens == burst - Granted(calls, burst, refillTime) >= 0
            && calls[0].t.first <= b.lastTime <= calls[|calls| - 1].t.third
    ensures var n, before := |calls| - 1, Granted(calls[..|calls| - 1], burst, refillTime);
            Granted(calls, burst, refillTime) == if before + calls[n].n <= burst then before + calls[n].n else before
  {
    hide Topped, After, Grants;
    var n := |calls| - 1;
    var c, shorter := calls[n], calls[..n];
    if n == 0 {
      assert shorter == [];
      FirstCall(c, burst, refillTime);
    } else {
      WithinOnePeriod(shorter, burst, refillTime);
      CallInPeriod(BucketAfter(shorter, burst, refillTime), c, burst, refillTime);
    }
  }

  lemma CallInPeriod(b: Bucket, c: Call, burst: int, refillTime: int)
    requires refillTime > 0 && burst >= 0 && c.t.Valid() && 0 <= b.tokens <= burst
    requires 0 < b.lastTime <= c.t.second < b.lastTime + refillTime
    ensures Grants(b, c.n, burst, refillTime, c.t) <==> c.n <= b.tokens
    ensures After(b, c.n, burst, refillTime, c.t).tokens == if c.n <= b.tokens then b.tokens - c.n else b.tokens
    ensures After(b, c.n, burst, refillTime, c.t).lastTime in {b.lastTime, c.t.third}
  {
    hide Topped;
    PassesExactly(b, c.n, burst, refillTime, c.t);
  }

  // ----- a bounded cache of buckets

  function GetBucket(cache: map<string, Bucket>, key: string): Bucket {
    if key in cache then cache[key] else EMPTY
  }

  class RateLimitCache {
    const capacity: nat
    const limiter: TimeLimiter
    var cache: map<string, TokenBucket>

    constructor (capacity: nat, burst: int, refillSeconds: int)
      requires refillSeconds > 0
      ensures Valid() && cache == map[] && this.capacity == capacity
      ensures limiter.burst == burst && limiter.refillTime == refillSeconds * 1_000_000
    {
      this.capacity := capacity;
      limiter := new TimeLimiter(burst, refillSeconds);
      cache := map[];
    }

    /** One bucket per key, and no more keys than the capacity. */
    ghost predicate Valid()
      reads this
    {
      && limiter.refillTime > 0
      && |cache| <= capacity
      && Distinct()
    }

    ghost function Buckets(): map<string, Bucket>
      reads this, cache.Values
    {
      map k | k in cache :: cache[k].Value()
    }

    ghost predicate Distinct()
      reads this
    {
      forall k, l :: k in cache && l in cache && cache[k] == cache[l] ==> k == l
    }

    /** The bucket of a key, a new empty one if the key has none. */
    method TryEmplace(key: string) returns (inserted: bool, bucket: TokenBucket)
      requires Distinct()
      modifies this`cache
      ensures Distinct() && cache == old(cache)[key := bucket]
      ensures inserted <==> key !in old(cache)
      ensures if inserted then fresh(bucket) else bucket == old(cache)[key]
      ensures Buckets() == old(Buckets())[key := GetBucket(old(Buckets()), key)]
      ensures |cache| == |old(cache)| + if inserted then 1 else 0
    {
      inserted := key !in cache;
      if inserted {
        bucket := new TokenBucket();
        assert cache[key := bucket].Keys == cache.Keys + {key};
        cache := cache[key := bucket];
      } else {
        bucket := cache[key];
        assert cache == cache[key := bucket];
      }
    }

    method Clear()
      modifies this`cache
      ensures Distinct() && cache == map[] && Buckets() == map[]
    {
      cache := map[];
    }

    /** One request on the bucket of a key leaves the other buckets alone. */
    method Charge(key: string, t: Readings) returns (ok: bool)
      requires limiter.refillTime > 0 && Distinct() && key in cache
      modifies cache[key]
      ensures Buckets() == old(Buckets())[key := After(old(Buckets()[key]), 1, limiter.burst, limiter.refillTime, t)]
      ensures ok <==> Grants(old(Buckets()[key]), 1, limiter.burst, limiter.refillTime, t)
    {
      hide After, Grants;
      ok := limiter.AllowN(cache[key], 1, t);
    }

    /** A key that overflows the cache empties it and passes unlimited. */
    method Allow(key: string, t: Readings) returns (ok: bool)
      requires Valid()
      modifies this, cache.Values
      ensures Valid() && fresh(cache.Values - old(cache.Values))
      ensures var flush, bucket := key !in old(cache) && |old(cache)| == capacity, GetBucket(old(Buckets()), key);
              && Buckets() == (if flush then map[]
                               else old(Buckets())[key := After(bucket, 1, limiter.burst, limiter.refillTime, t)])
              && (ok <==> flush || Grants(bucket, 1, limiter.burst, limiter.refillTime, t))
    {
      hide After, Grants, GetBucket, RateLimitCache.Distinct;
      var inserted, _ := TryEmplace(key);
      if inserted && |cache| > capacity {
        Clear();
        return true;
      }
      ok := Charge(key, t);
    }
  }

  // ----- the counter per key

  class CountLimiter {
    const count: int
    var cache: map<string, nat>

    constructor (count: int)
      ensures this.count == count && cache == map[]
    {
      this.count, cache := count, map[];
    }

    ghost function Calls(key: string): nat
      reads this
    {
      if key in cache then cache[key] else 0
    }

    method Allow(key: string) returns (ok: bool)
      modifies this
      ensures forall k :: Calls(k) == old(Calls(k)) + if k == key then 1 else 0
      ensures ok <==> Calls(key) <= count
    {
      if key !in cache {
        cache := cache[key := 0];
      }
      cache := cache[key := cache[key] + 1];
      return cache[key] <= count;
    }
  }
}
