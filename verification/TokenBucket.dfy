/**
 The arithmetic of one guild's token bucket, and the bucket it is meant to be:
 a sequential one that never expires and serves one request at a time.

 Tokens and timestamps are real numbers: rounding is not modelled.
 */
module TokenBucket {
  import opened Options

  /** The two settings of the limiter. The rate divides, so it must be positive. */
  datatype Config = Config(capacity: int, refillPerHour: int) {
    predicate Valid() {
      capacity >= 1 && refillPerHour >= 1
    }

    function Cap(): real {
      capacity as real
    }

    /** Tokens per second. */
    function Rate(): real {
      refillPerHour as real / 3600.0
    }

    /** Lifetime of the stored key in whole seconds: twice the full refill, floored first, and an hour at least. */
    function TtlSeconds(): int {
      var fullRefill := capacity * 3600 / MaxInt(refillPerHour, 1);
      MaxInt(3600, fullRefill * 2)
    }

    function Ttl(): real {
      TtlSeconds() as real
    }
  }

  /** The two fields of the Redis hash. */
  datatype Bucket = Bucket(tokens: real, lastRefill: real)

  /** What `acquire` returns. */
  datatype Verdict = Verdict(allowed: bool, retryAfter: real)

  /** Tokens earned in a span of time, and the time in which tokens are earned. */
  function Earned(c: Config, seconds: real): real {
    seconds * c.Rate()
  }

  function TimeToEarn(c: Config, tokens: real): real
    requires c.Valid()
  {
    tokens / c.Rate()
  }

  /** The lazily refilled balance of a stored bucket. */
  function Level(c: Config, b: Bucket, now: real): real {
    var elapsed := MaxReal(0.0, now - b.lastRefill);
    MinReal(c.Cap(), b.tokens + Earned(c, elapsed))
  }

  /** The balance seen by a reader: an absent key counts as a full bucket. */
  function Balance(c: Config, raw: Option<Bucket>, now: real): real {
    match raw
    case None => c.Cap()
    case Some(b) => Level(c, b, now)
  }

  /** The hash and the verdict that `acquire` writes and returns for a snapshot. */
  function AcquireFrom(c: Config, raw: Option<Bucket>, now: real): (Bucket, Verdict)
    requires c.Valid()
  {
    var tokens := Balance(c, raw, now);
    if tokens >= 1.0 then
      (Bucket(tokens - 1.0, now), Verdict(true, 0.0))
    else
      (Bucket(tokens, now), Verdict(false, TimeToEarn(c, 1.0 - tokens)))
  }

  /** The hash that `refund` writes for a snapshot, or None when it backs out. */
  function RefundFrom(c: Config, raw: Option<Bucket>, now: real): Option<Bucket> {
    match raw
    case None => None
    case Some(b) =>
      var effective := Level(c, b, now);
      if effective >= c.Cap() then None
      else Some(Bucket(MinReal(c.Cap(), effective + 1.0), now))
  }

  /** One committed write: who made it, the clock value it used, what it answered. */
  datatype Commit = Acquired(who: nat, now: real, verdict: Verdict) | Refunded(who: nat, now: real)

  // ---------------------------------------------------------------- the reference bucket

  /** The hash of a bucket that never expires, after serving the commits in order. */
  ghost function Ideal(c: Config, log: seq<Commit>): Option<Bucket>
    requires c.Valid()
  {
    if log == [] then None
    else
      var n := |log| - 1;
      var before := Ideal(c, log[..n]);
      match log[n]
      case Acquired(_, now, _) => Some(AcquireFrom(c, before, now).0)
      case Refunded(_, now) => Some(Bucket(MinReal(c.Cap(), Balance(c, before, now) + 1.0), now))
  }

  /** Entry k of the log is exactly what the reference bucket answers at that point. */
  ghost predicate ServedAt(c: Config, log: seq<Commit>, k: nat)
    requires c.Valid() && k < |log|
  {
    match log[k]
    case Acquired(_, now, verdict) => verdict == AcquireFrom(c, Ideal(c, log[..k]), now).1
    case Refunded(_, now) => Balance(c, Ideal(c, log[..k]), now) < c.Cap()
  }

  ghost predicate Served(c: Config, log: seq<Commit>)
    requires c.Valid()
  {
    forall k: nat {:trigger ServedAt(c, log, k)} | k < |log| :: ServedAt(c, log, k)
  }

  /** The clock values committed as `last_refill` never decrease. */
  ghost predicate Ordered(log: seq<Commit>) {
    forall i, j | 0 <= i < j < |log| :: log[i].now <= log[j].now
  }

  // ---------------------------------------------------------------- refill arithmetic

  lemma EarnedMonotone(c: Config, x: real, y: real)
    requires c.Valid() && x <= y
    ensures Earned(c, x) <= Earned(c, y)
  {
    Scale(x, y, c.Rate());
  }

  lemma EarnedAdds(c: Config, x: real, y: real)
    ensures Earned(c, x + y) == Earned(c, x) + Earned(c, y)
    ensures Earned(c, 0.0) == 0.0
  {
  }

  /** The wait for some tokens is exactly the time in which they are earned. */
  lemma EarnedInTime(c: Config, tokens: real, elapsed: real)
    requires c.Valid()
    ensures elapsed >= TimeToEarn(c, tokens) <==> Earned(c, elapsed) >= tokens
  {
    assert TimeToEarn(c, tokens) * c.Rate() == tokens;
    ScaleIff(TimeToEarn(c, tokens), elapsed, c.Rate());
  }

  lemma FloorOfQuotient(n: int, p: int)
    requires p >= 1
    ensures n / p * p <= n < (n / p + 1) * p
  {
  }

  lemma MulMonotone(a: int, b: int, p: int)
    requires a <= b && p >= 0
    ensures a * p <= b * p
  {
  }

  /** The lifetime in whole seconds covers the refill: doubling or the one-hour floor makes up for the rounding. */
  lemma TtlInSeconds(c: Config)
    requires c.Valid()
    ensures c.TtlSeconds() >= 3600
    ensures c.TtlSeconds() * c.refillPerHour >= c.capacity * 3600
  {
    var p := c.refillPerHour;
    var n := c.capacity * 3600;
    FloorOfQuotient(n, p);
    MulMonotone(n / p + 1, c.TtlSeconds(), p);
  }

  lemma RateOfProduct(ttl: int, p: int)
    ensures ttl as real * (p as real / 3600.0) == (ttl * p) as real / 3600.0
  {
    assert (ttl * p) as real == ttl as real * p as real;
  }

  /** The key outlives the longest possible refill, floor division included. */
  lemma TtlCoversFullRefill(c: Config)
    requires c.Valid()
    ensures Earned(c, c.Ttl()) >= c.Cap()
    ensures c.Ttl() > 0.0
  {
    TtlInSeconds(c);
    RateOfProduct(c.TtlSeconds(), c.refillPerHour);
    assert (c.TtlSeconds() * c.refillPerHour) as real >= (c.capacity * 3600) as real;
    hide Config.TtlSeconds;
  }

  /** The lifetime exactly: an hour, or the whole seconds of a full refill twice over if that is longer. */
  lemma TtlIsTwiceTheRefill(c: Config)
    requires c.Valid()
    ensures exists refill: int ::
              && refill * c.refillPerHour <= 3600 * c.capacity < (refill + 1) * c.refillPerHour
              && c.TtlSeconds() == (if 2 * refill > 3600 then 2 * refill else 3600)
  {
    var refill := c.capacity * 3600 / c.refillPerHour;
    FloorOfQuotient(c.capacity * 3600, c.refillPerHour);
    assert refill * c.refillPerHour <= 3600 * c.capacity < (refill + 1) * c.refillPerHour;
  }

  /** `refill_per_hour` is per hour: an hour after it was empty, the bucket holds that many tokens, up to the capacity. */
  lemma HourlyRefill(c: Config, t: real)
    requires c.Valid()
    ensures Level(c, Bucket(0.0, t), t + 3600.0) == MinReal(c.capacity as real, c.refillPerHour as real)
  {
    PerHour(c, 3600.0);
  }

  lemma PerHour(c: Config, seconds: real)
    ensures 3600.0 * Earned(c, seconds) == c.refillPerHour as real * seconds
    ensures c.Cap() == c.capacity as real
  {
    assert 3600.0 * c.Rate() == c.refillPerHour as real;
    assert 3600.0 * (seconds * c.Rate()) == seconds * (3600.0 * c.Rate());
  }

  /** At most the capacity, the refunds, and `refill_per_hour` for each 3600 seconds. */
  predicate WithinRate(c: Config, allowed: nat, refunds: nat, seconds: real) {
    3600.0 * allowed as real <= 3600.0 * (c.capacity + refunds) as real + c.refillPerHour as real * seconds
  }

  /** A bound on requests in terms of the hourly rate. */
  lemma InHours(c: Config, allowed: nat, refunds: nat, seconds: real)
    requires allowed as real <= c.Cap() + Earned(c, seconds) + refunds as real
    ensures WithinRate(c, allowed, refunds, seconds)
  {
    PerHour(c, seconds);
    hide Earned;
  }

  /** An empty bucket asks for the time of one token, and a missing one gives the first of its capacity. */
  lemma FirstAnswers(c: Config, t: real)
    requires c.Valid()
    ensures AcquireFrom(c, Some(Bucket(0.0, t)), t)
         == (Bucket(0.0, t), Verdict(false, 3600.0 / c.refillPerHour as real))
    ensures AcquireFrom(c, None, t) == (Bucket(c.capacity as real - 1.0, t), Verdict(true, 0.0))
  {
    EarnedAdds(c, 0.0, 0.0);
    OneTokenTakes(c);
  }

  lemma OneTokenTakes(c: Config)
    requires c.Valid()
    ensures TimeToEarn(c, 1.0) == 3600.0 / c.refillPerHour as real
  {
    var r := c.refillPerHour as real;
    assert (3600.0 / r) * (r / 3600.0) == 1.0;
  }

  /** A bucket that has been idle for its whole lifetime is full: eviction shows nothing. */
  lemma IdleBucketIsFull(c: Config, b: Bucket, now: real)
    requires c.Valid() && b.tokens >= 0.0
    requires b.lastRefill + c.Ttl() <= now
    ensures Level(c, b, now) == c.Cap()
  {
    hide Earned;
    TtlCoversFullRefill(c);
    EarnedMonotone(c, c.Ttl(), now - b.lastRefill);
  }

  /** Refilling in two steps gives what refilling in one does. */
  lemma RefillComposes(c: Config, b: Bucket, mid: real, now: real)
    requires c.Valid() && b.lastRefill <= mid <= now
    ensures Level(c, Bucket(Level(c, b, mid), mid), now) == Level(c, b, now)
  {
    hide Earned;
    EarnedMonotone(c, 0.0, now - mid);
    EarnedAdds(c, mid - b.lastRefill, now - mid);
    assert (mid - b.lastRefill) + (now - mid) == now - b.lastRefill;
  }

  lemma BalanceBounds(c: Config, raw: Option<Bucket>, now: real)
    requires c.Valid()
    requires raw.Some? ==> 0.0 <= raw.value.tokens
    ensures 0.0 <= Balance(c, raw, now) <= c.Cap()
  {
    hide Earned;
    if raw.Some? {
      EarnedAdds(c, 0.0, 0.0);
      EarnedMonotone(c, 0.0, MaxReal(0.0, now - raw.value.lastRefill));
    }
  }

  /** A wait is always asked for, and never longer than one whole token takes. */
  lemma RetryAfterBounds(c: Config, raw: Option<Bucket>, now: real)
    requires c.Valid() && (raw.Some? ==> 0.0 <= raw.value.tokens)
    requires !AcquireFrom(c, raw, now).1.allowed
    ensures 0.0 < AcquireFrom(c, raw, now).1.retryAfter <= TimeToEarn(c, 1.0)
  {
    hide Earned, TimeToEarn;
    BalanceBounds(c, raw, now);
    var missing := 1.0 - Balance(c, raw, now);
    EarnedAdds(c, 0.0, 0.0);
    EarnedInTime(c, missing, 0.0);
    EarnedInTime(c, 1.0, TimeToEarn(c, 1.0));
    EarnedInTime(c, missing, TimeToEarn(c, 1.0));
  }

  // ---------------------------------------------------------------- facts about the reference

  /** The stored tokens of the reference stay between zero and capacity. */
  lemma {:induction false} IdealBounds(c: Config, log: seq<Commit>)
    requires c.Valid()
    ensures log != [] <==> Ideal(c, log).Some?
    ensures log != [] ==> Ideal(c, log).value.lastRefill == log[|log| - 1].now
    ensures log != [] ==> 0.0 <= Ideal(c, log).value.tokens <= c.Cap()
  {
    hide Earned;
    if log != [] {
      var n := |log| - 1;
      IdealBounds(c, log[..n]);
      BalanceBounds(c, Ideal(c, log[..n]), log[n].now);
    }
  }

  function Spends(e: Commit): nat {
    if e.Acquired? && e.verdict.allowed then 1 else 0
  }

  function Credits(e: Commit): nat {
    if e.Refunded? then 1 else 0
  }

  /** Requests allowed, and refunds committed, in a stretch of the log. */
  function Allowed(log: seq<Commit>): nat {
    if log == [] then 0 else Allowed(log[..|log| - 1]) + Spends(log[|log| - 1])
  }

  function Refunds(log: seq<Commit>): nat {
    if log == [] then 0 else Refunds(log[..|log| - 1]) + Credits(log[|log| - 1])
  }

  /** Counting one more entry of a stretch. */
  lemma CountOneMore(log: seq<Commit>, i: nat, n: nat)
    requires i <= n < |log|
    ensures Allowed(log[i..n + 1]) == Allowed(log[i..n]) + Spends(log[n])
    ensures Refunds(log[i..n + 1]) == Refunds(log[i..n]) + Credits(log[n])
  {
    assert log[i..n + 1][..n - i] == log[i..n];
    assert log[i..n + 1][n - i] == log[n];
  }

  /** One commit: what it spends plus what it leaves is paid for by what it found, plus its refund. */
  lemma CommitAccount(c: Config, log: seq<Commit>, n: nat)
    requires c.Valid() && n < |log| && ServedAt(c, log, n) && Ordered(log)
    ensures Ideal(c, log[..n + 1]).Some? && (n > 0 ==> Ideal(c, log[..n]).Some?)
    ensures
      var left := Ideal(c, log[..n + 1]).value.tokens;
      var paid := Spends(log[n]) as real + left - Credits(log[n]) as real;
      && left >= 0.0
      && paid <= c.Cap()
      && (n > 0 ==> paid <= Ideal(c, log[..n]).value.tokens + Earned(c, log[n].now - log[n - 1].now))
  {
    hide Earned, TimeToEarn;
    var before := Ideal(c, log[..n]);
    assert log[..n + 1][..n] == log[..n];
    IdealBounds(c, log[..n]);
    IdealBounds(c, log[..n + 1]);
    BalanceBounds(c, before, log[n].now);
    assert n > 0 ==> log[..n][n - 1] == log[n - 1];
  }

  /** Tokens spent in a stretch of the log, plus those left, are paid for by the burst, the refill and the refunds. */
  lemma {:induction false} RateAccount(c: Config, log: seq<Commit>, i: nat, j: nat)
    requires c.Valid() && Served(c, log) && Ordered(log)
    requires i < j <= |log|
    ensures Ideal(c, log[..j]).Some?
    ensures Allowed(log[i..j]) as real + Ideal(c, log[..j]).value.tokens
         <= c.Cap() + Earned(c, log[j - 1].now - log[i].now) + Refunds(log[i..j]) as real
    decreases j
  {
    hide Earned, Ideal;
    var n := j - 1;
    assert ServedAt(c, log, n);
    CommitAccount(c, log, n);
    CountOneMore(log, i, n);
    EarnedAdds(c, 0.0, 0.0);
    if i < n {
      RateAccount(c, log, i, n);
      EarnedAdds(c, log[n - 1].now - log[i].now, log[n].now - log[n - 1].now);
      assert (log[n - 1].now - log[i].now) + (log[n].now - log[n - 1].now) == log[n].now - log[i].now;
    }
  }

  /** In any stretch of the log, at most burst + refill + refunds requests were allowed. */
  lemma RateBound(c: Config, log: seq<Commit>, i: nat, j: nat)
    requires c.Valid() && Served(c, log) && Ordered(log)
    requires i < j <= |log|
    ensures Allowed(log[i..j]) as real
         <= c.Cap() + Earned(c, log[j - 1].now - log[i].now) + Refunds(log[i..j]) as real
    ensures WithinRate(c, Allowed(log[i..j]), Refunds(log[i..j]), log[j - 1].now - log[i].now)
  {
    hide WithinRate, Earned, Ideal, Served, Ordered, Allowed, Refunds;
    RateAccount(c, log, i, j);
    IdealBounds(c, log[..j]);
    InHours(c, Allowed(log[i..j]), Refunds(log[i..j]), log[j - 1].now - log[i].now);
  }

  ghost predicate DeniedBetween(log: seq<Commit>, i: nat, j: nat)
    requires j <= |log|
  {
    forall k | i <= k < j :: log[k].Acquired? && !log[k].verdict.allowed
  }

  /** Denied requests in between do not change what the bucket holds later. */
  lemma {:induction false} DenialsCompose(c: Config, log: seq<Commit>, i: nat, j: nat, now: real)
    requires c.Valid() && Served(c, log) && Ordered(log)
    requires i < j <= |log| && DeniedBetween(log, i, j) && log[j - 1].now <= now
    ensures Ideal(c, log[..j]).Some? && Ideal(c, log[..i + 1]).Some?
    ensures Level(c, Ideal(c, log[..j]).value, now) == Level(c, Ideal(c, log[..i + 1]).value, now)
    decreases j
  {
    hide Level;
    IdealBounds(c, log[..j]);
    IdealBounds(c, log[..i + 1]);
    if i + 1 < j {
      var n := j - 1;
      assert log[..j][..n] == log[..n];
      assert ServedAt(c, log, n);
      IdealBounds(c, log[..n]);
      DenialsCompose(c, log, i, n, log[n].now);
      DenialsCompose(c, log, i, n, now);
      RefillComposes(c, Ideal(c, log[..n]).value, log[n].now, now);
    }
  }

  /** A bucket left short of one token holds one again exactly after the time to earn the rest. */
  lemma WhenRefilled(c: Config, b: Bucket, now: real)
    requires c.Valid() && b.lastRefill <= now
    ensures Level(c, b, now) >= 1.0 <==> now - b.lastRefill >= TimeToEarn(c, 1.0 - b.tokens)
  {
    hide Earned, TimeToEarn;
    EarnedInTime(c, 1.0 - b.tokens, now - b.lastRefill);
  }

  /**
   A denial's `retry_after` is exact, however often the bucket is polled meanwhile: after
   the denial at i and nothing but denials up to j, a request at j is allowed if and only
   if at least that long has passed.
   */
  lemma RetryAfterIsExact(c: Config, log: seq<Commit>, i: nat, j: nat)
    requires c.Valid() && Served(c, log) && Ordered(log)
    requires i < j < |log| && DeniedBetween(log, i, j) && log[j].Acquired?
    ensures log[j].verdict.allowed <==> log[j].now - log[i].now >= log[i].verdict.retryAfter
  {
    hide Level, TimeToEarn;
    var now := log[j].now;
    assert ServedAt(c, log, i) && ServedAt(c, log, j);
    assert log[..i + 1][..i] == log[..i];
    DenialsCompose(c, log, i, j, now);
    WhenRefilled(c, Ideal(c, log[..i + 1]).value, now);
  }
}
