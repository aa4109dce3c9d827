/**
 * The per-session token bucket of security/RateLimiter.java.
 *
 * A bucket holds at most MAX_TOKENS tokens. Each attempt first refills: once strictly
 * more than REFILL_INTERVAL_NANOS have passed since the last refill, the bucket is
 * reset to full (not topped up in proportion to the time). Then one token is taken if
 * there is one. The clock (`System.nanoTime()`) is the parameter `now`, in nanoseconds.
 *
 * `Bucket` and the functions on it specify one bucket; the classes `TokenBucket` and
 * `RateLimiter` hold the state in place as the source does and are proved equal to them.
 */
module RateLimiting {
  import opened RoomModel

  const MAX_TOKENS: int := 5
  const REFILL_INTERVAL_NANOS: int := 1_000_000_000

  /** The two fields of a bucket. */
  datatype Bucket = Bucket(tokens: int, lastRefillTime: int)

  /** A new bucket is full and stamped with the time it is created, so an attempt made at once succeeds. */
  function NewBucket(now: int): (b: Bucket)
    ensures InBounds(b)
    ensures Consume(b, now) == (true, Bucket(MAX_TOKENS - 1, now))
  {
    Bucket(MAX_TOKENS, now)
  }

  predicate InBounds(b: Bucket) {
    0 <= b.tokens <= MAX_TOKENS
  }

  /**
   * `refill()`: a hard reset to full once strictly more than one interval has elapsed.
   * The bucket is either untouched or full and restamped; a reset never moves the
   * stamp back and never breaks the bounds.
   */
  function Refilled(b: Bucket, now: int): (r: Bucket)
    ensures r == b || (r.tokens == MAX_TOKENS && r.lastRefillTime == now)
    ensures r.lastRefillTime >= b.lastRefillTime
    ensures InBounds(b) ==> InBounds(r)
  {
    if now - b.lastRefillTime > REFILL_INTERVAL_NANOS then Bucket(MAX_TOKENS, now) else b
  }

  /**
   * `TokenBucket.tryConsume()`: refill, then take a token if there is one. The token
   * count never leaves [0, MAX_TOKENS], and a bucket that has just granted an attempt
   * is never full.
   */
  function Consume(b: Bucket, now: int): (res: (bool, Bucket))
    ensures InBounds(b) ==> InBounds(res.1)
    ensures InBounds(b) && res.0 ==> res.1.tokens < MAX_TOKENS
  {
    var r := Refilled(b, now);
    if r.tokens > 0 then (true, r.(tokens := r.tokens - 1)) else (false, r)
  }

  /** The outcomes of a run of attempts at the given times. */
  function ConsumeRun(b: Bucket, times: seq<int>): (r: seq<bool>)
    ensures |r| == |times|
    decreases |times|
  {
    if times == [] then []
    else
      var (ok, b') := Consume(b, times[0]);
      [ok] + ConsumeRun(b', times[1..])
  }

  /**
   * `RateLimiter.tryConsume(session)`: the session's bucket, created full on first use,
   * takes the attempt. Every bucket of the table stays within bounds.
   */
  function LimiterConsume(buckets: map<SessionId, Bucket>, s: SessionId, now: int): (res: (bool, map<SessionId, Bucket>))
    ensures AllInBounds(buckets) ==> AllInBounds(res.1)
  {
    var b := if s in buckets then buckets[s] else NewBucket(now);
    var (ok, b') := Consume(b, now);
    (ok, buckets[s := b'])
  }

  // ---------------------------------------------------------------------------
  // Properties of one bucket
  // ---------------------------------------------------------------------------

  /**
   * The refill rule: with more than one interval elapsed the bucket is full and
   * restamped with `now`; with exactly one interval or less it is untouched.
   */
  lemma RefillIsHardReset(b: Bucket, now: int)
    ensures now - b.lastRefillTime > REFILL_INTERVAL_NANOS ==> Refilled(b, now) == Bucket(MAX_TOKENS, now)
    ensures now - b.lastRefillTime <= REFILL_INTERVAL_NANOS ==> Refilled(b, now) == b
    // The boundary: exactly one interval after the last refill is not yet a refill.
    ensures now == b.lastRefillTime + REFILL_INTERVAL_NANOS ==> Refilled(b, now) == b
  {
  }

  /**
   * An attempt succeeds exactly when the refilled bucket has a token, and then takes
   * exactly one. A failed attempt changes nothing at all: a refill that fired would
   * have left a full bucket, and the attempt would have succeeded.
   */
  lemma ConsumeTakesOneToken(b: Bucket, now: int)
    ensures Consume(b, now).0 <==> Refilled(b, now).tokens > 0
    ensures Consume(b, now).0 ==> Consume(b, now).1 == Refilled(b, now).(tokens := Refilled(b, now).tokens - 1)
    ensures !Consume(b, now).0 ==> Consume(b, now).1 == b
  {
  }

  /**
   * Burst then silence: while no refill can fire (every attempt within one interval of
   * the last refill), the first `b.tokens` attempts succeed and every later one fails.
   */
  lemma {:induction false} BurstThenSilence(b: Bucket, times: seq<int>)
    requires InBounds(b)
    requires forall i :: 0 <= i < |times| ==> times[i] - b.lastRefillTime <= REFILL_INTERVAL_NANOS
    ensures forall i :: 0 <= i < |times| ==> ConsumeRun(b, times)[i] == (i < b.tokens)
    decreases |times|
  {
    if times != [] {
      var (ok, b') := Consume(b, times[0]);
      assert Refilled(b, times[0]) == b;
      assert b'.lastRefillTime == b.lastRefillTime;
      assert ok == (b.tokens > 0);
      assert b'.tokens == if ok then b.tokens - 1 else b.tokens;
      BurstThenSilence(b', times[1..]);
      forall i | 0 <= i < |times|
        ensures ConsumeRun(b, times)[i] == (i < b.tokens)
      {
        if i > 0 {
          assert ConsumeRun(b, times)[i] == ConsumeRun(b', times[1..])[i - 1];
        }
      }
    }
  }

  /** From a full bucket within one interval: five attempts succeed, the sixth fails. */
  lemma FiveThenReject(t0: int, times: seq<int>)
    requires |times| == MAX_TOKENS + 1
    requires forall i :: 0 <= i < |times| ==> times[i] - t0 <= REFILL_INTERVAL_NANOS
    ensures ConsumeRun(NewBucket(t0), times) == [true, true, true, true, true, false]
  {
    BurstThenSilence(NewBucket(t0), times);
  }

  /** After more than one interval the bucket is full again, whatever it held. */
  lemma FullAfterInterval(b: Bucket, now: int)
    requires now - b.lastRefillTime > REFILL_INTERVAL_NANOS
    ensures Consume(b, now) == (true, Bucket(MAX_TOKENS - 1, now))
  {
  }

  // ---------------------------------------------------------------------------
  // Properties of the table of buckets
  // ---------------------------------------------------------------------------

  /**
   * Buckets are per session: an attempt by `s` touches only the entry of `s`. The first
   * attempt of a session finds a new full bucket stamped with `now`, and succeeds.
   */
  lemma LimiterTouchesOnlyCaller(buckets: map<SessionId, Bucket>, s: SessionId, now: int)
    ensures LimiterConsume(buckets, s, now).1.Keys == buckets.Keys + {s}
    ensures forall t :: t in buckets && t != s ==> LimiterConsume(buckets, s, now).1[t] == buckets[t]
    ensures s !in buckets ==> LimiterConsume(buckets, s, now) == (true, buckets[s := Bucket(MAX_TOKENS - 1, now)])
  {
  }

  /** A rejected attempt leaves the whole table as it was. */
  lemma LimiterRejectChangesNothing(buckets: map<SessionId, Bucket>, s: SessionId, now: int)
    requires !LimiterConsume(buckets, s, now).0
    ensures LimiterConsume(buckets, s, now).1 == buckets
  {
    ConsumeTakesOneToken(buckets[s], now);
  }

  /** `removeSession` forgets the bucket, so the session starts again from a full one. */
  lemma RemoveRestartsBucket(buckets: map<SessionId, Bucket>, s: SessionId, now: int)
    ensures LimiterConsume(buckets - {s}, s, now) == (true, (buckets - {s})[s := Bucket(MAX_TOKENS - 1, now)])
  {
  }

  /** Every bucket of the table is within bounds. */
  ghost predicate AllInBounds(buckets: map<SessionId, Bucket>) {
    forall s :: s in buckets ==> InBounds(buckets[s])
  }

  // ---------------------------------------------------------------------------
  // The objects
  // ---------------------------------------------------------------------------

  class TokenBucket {
    var tokens: int
    var lastRefillTime: int

    function Snapshot(): Bucket
      reads this
    {
      Bucket(tokens, lastRefillTime)
    }

    /** A bucket starts full, stamped with the time it is created. */
    constructor (now: int)
      ensures Snapshot() == NewBucket(now)
    {
      tokens := MAX_TOKENS;
      lastRefillTime := now;
    }

    method TryConsume(now: int) returns (ok: bool)
      modifies this
      ensures (ok, Snapshot()) == Consume(old(Snapshot()), now)
    {
      Refill(now);
      if tokens > 0 {
        tokens := tokens - 1;
        return true;
      }
      return false;
    }

    method Refill(now: int)
      modifies this
      ensures Snapshot() == Refilled(old(Snapshot()), now)
    {
      var elapsed := now - lastRefillTime;
      if elapsed > REFILL_INTERVAL_NANOS {
        tokens := MAX_TOKENS;
        lastRefillTime := now;
      }
    }
  }

  class RateLimiter {
    var buckets: map<SessionId, TokenBucket>

    /** The table as values, kept in step with the bucket objects. */
    ghost var Model: map<SessionId, Bucket>

    /**
     * `Model` describes the buckets, no two sessions share a bucket object, and every
     * bucket is within bounds.
     */
    ghost predicate Valid()
      reads this, buckets.Values
    {
      && buckets.Keys == Model.Keys
      && (forall s :: s in buckets ==> buckets[s].Snapshot() == Model[s])
      && (forall s, t :: s in buckets && t in buckets && s != t ==> buckets[s] != buckets[t])
      && AllInBounds(Model)
    }

    constructor ()
      ensures Valid() && Model == map[]
    {
      buckets := map[];
      Model := map[];
    }

    method TryConsume(s: SessionId, now: int) returns (ok: bool)
      requires Valid()
      modifies this, buckets.Values
      ensures Valid()
      ensures (ok, Model) == LimiterConsume(old(Model), s, now)
    {
      var b := BucketFor(s, now);
      ghost var before := Model;
      assert b.Snapshot() == if s in old(Model) then old(Model)[s] else NewBucket(now);
      ok := b.TryConsume(now);
      Model := old(Model)[s := b.Snapshot()];
      forall t | t in buckets
        ensures buckets[t].Snapshot() == Model[t]
      {
        if t != s {
          assert buckets[t] != b;
          assert buckets[t].Snapshot() == before[t];
        }
      }
    }

    /** `computeIfAbsent`: the session's bucket, created full if it has none. */
    method BucketFor(s: SessionId, now: int) returns (b: TokenBucket)
      requires Valid()
      modifies this
      ensures Valid()
      ensures s in buckets && b == buckets[s] && b.Snapshot() == Model[s]
      ensures forall t :: t in buckets && t != s ==> buckets[t] != b
      ensures b in old(buckets.Values) || fresh(b)
      ensures Model == old(Model)[s := if s in old(Model) then old(Model)[s] else NewBucket(now)]
    {
      if s !in buckets {
        var created := new TokenBucket(now);
        buckets := buckets[s := created];
        Model := Model[s := NewBucket(now)];
      }
      b := buckets[s];
    }

    method RemoveSession(s: SessionId)
      requires Valid()
      modifies this
      ensures Valid()
      ensures Model == old(Model) - {s}
    {
      buckets := buckets - {s};
      Model := Model - {s};
    }
  }
}
