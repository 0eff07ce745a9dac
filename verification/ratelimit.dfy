/** The per-peer token bucket, with time in whole nanoseconds instead of f32 seconds. */
module RateLimit {
  const RATE_BURST: nat := 200
  /** Nanoseconds per token at 100 tokens a second. */
  const TICK: nat := 10_000_000
  const U32_MAX: nat := 4294967295

  datatype Bucket = Bucket(tokens: nat, lastRefill: nat)

  function NewBucket(now: nat): Bucket { Bucket(RATE_BURST, now) }

  function Min(a: int, b: int): int { if a < b then a else b }

  /** Time since the last refill; a clock that stepped back counts as none. */
  function Elapsed(b: Bucket, now: nat): nat {
    if now >= b.lastRefill then now - b.lastRefill else 0
  }

  /** Whole tokens only: the fraction of a tick that is left over is dropped by `Refill`. */
  function NewTokens(b: Bucket, now: nat): nat {
    Min(Elapsed(b, now) / TICK, U32_MAX)
  }

  function Refill(b: Bucket, now: nat): Bucket {
    var added := NewTokens(b, now);
    if added > 0 then Bucket(Min(Min(b.tokens + added, U32_MAX), RATE_BURST), now) else b
  }

  function Consume(b: Bucket, now: nat): (bool, Bucket) {
    var r := Refill(b, now);
    if r.tokens > 0 then (true, r.(tokens := r.tokens - 1)) else (false, r)
  }

  class TokenBucket {
    var tokens: nat
    var lastRefill: nat

    ghost function Value(): Bucket
      reads this
    {
      Bucket(tokens, lastRefill)
    }

    constructor (now: nat)
      ensures Value() == NewBucket(now)
    {
      tokens, lastRefill := RATE_BURST, now;
    }

    method ConsumeToken(now: nat) returns (ok: bool)
      modifies this
      ensures (ok, Value()) == Consume(old(Value()), now)
    {
      var elapsed := if now >= lastRefill then now - lastRefill else 0;
      var added := Min(elapsed / TICK, U32_MAX);
      if added > 0 {
        tokens := Min(Min(tokens + added, U32_MAX), RATE_BURST);
        lastRefill := now;
      }
      if tokens > 0 {
        tokens := tokens - 1;
        ok := true;
      } else {
        ok := false;
      }
    }
  }

  // ---- schedules of calls ---------------------------------------------------------------

  /** Calls at non-decreasing times, none before the bucket's last refill. */
  predicate Schedule(b: Bucket, times: seq<nat>) {
    (forall i :: 0 <= i < |times| ==> b.lastRefill <= times[i]) &&
    (forall i, j :: 0 <= i < j < |times| ==> times[i] <= times[j])
  }

  /** The bucket after a list of calls. */
  function After(b: Bucket, times: seq<nat>): Bucket {
    if times == [] then b else Consume(After(b, times[..|times| - 1]), times[|times| - 1]).1
  }

  /** Whether the last call of a non-empty list is granted. */
  predicate Granted(b: Bucket, times: seq<nat>)
    requires times != []
  {
    Consume(After(b, times[..|times| - 1]), times[|times| - 1]).0
  }

  function Grants(b: Bucket, times: seq<nat>): nat {
    if times == [] then 0
    else Grants(b, times[..|times| - 1]) + if Granted(b, times) then 1 else 0
  }

  lemma ScheduleFront(b: Bucket, times: seq<nat>)
    requires Schedule(b, times) && times != []
    ensures Schedule(b, times[..|times| - 1])
  {}

  lemma {:induction false} LastRefillIsPast(b: Bucket, times: seq<nat>)
    requires Schedule(b, times)
    ensures b.lastRefill <= After(b, times).lastRefill
    ensures times == [] ==> After(b, times) == b
    ensures times != [] ==> After(b, times[..|times| - 1]).lastRefill <= times[|times| - 1]
    ensures times != [] ==> After(b, times).lastRefill <= times[|times| - 1]
  {
    if times != [] {
      var front := times[..|times| - 1];
      ScheduleFront(b, times);
      LastRefillIsPast(b, front);
      if front != [] {
        assert front[|front| - 1] == times[|times| - 2] <= times[|times| - 1];
      }
    }
  }

  /** Tokens never leave 0..200. */
  lemma {:induction false} TokensBounded(b: Bucket, times: seq<nat>)
    requires b.tokens <= RATE_BURST
    ensures After(b, times).tokens <= RATE_BURST
  {
    if times != [] {
      TokensBounded(b, times[..|times| - 1]);
    }
  }

  /** Every grant is paid for: by the opening balance or by a whole tick of elapsed time. */
  lemma {:induction false} GrantsArePaid(b: Bucket, times: seq<nat>)
    requires Schedule(b, times)
    ensures TICK * (Grants(b, times) + After(b, times).tokens) <= TICK * b.tokens + After(b, times).lastRefill - b.lastRefill
  {
    if times != [] {
      ScheduleFront(b, times);
      LastRefillIsPast(b, times);
      GrantsArePaid(b, times[..|times| - 1]);
    }
  }

  /** At most 200 grants, plus 100 a second, in any run of calls from the bucket's creation at `t0` to `end`. */
  lemma UpperBoundFromCreation(t0: nat, times: seq<nat>, end: nat)
    requires Schedule(NewBucket(t0), times)
    requires t0 <= end && forall i :: 0 <= i < |times| ==> times[i] <= end
    ensures TICK * Grants(NewBucket(t0), times) <= TICK * RATE_BURST + (end - t0)
  {
    GrantsArePaid(NewBucket(t0), times);
    LastRefillIsPast(NewBucket(t0), times);
  }

  /** In any window that opens with a call, fewer than 201 grants plus 100 a second, whatever came before. */
  lemma UpperBoundInWindow(b: Bucket, times: seq<nat>)
    requires b.tokens <= RATE_BURST
    requires Schedule(b, times) && times != []
    ensures var start, end := times[0], times[|times| - 1];
            TICK * Grants(b, times) < TICK * (RATE_BURST + 1) + (end - start)
  {
    var b1 := Refill(b, times[0]);
    assert times[0] - b1.lastRefill < TICK;
    RefillIsIdempotentFirst(b, times);
    GrantsArePaid(b1, times);
    LastRefillIsPast(b1, times);
  }

  /** Refilling at the time of the first call before the run changes nothing. */
  lemma {:induction false} RefillIsIdempotentFirst(b: Bucket, times: seq<nat>)
    requires Schedule(b, times) && times != []
    ensures var b1 := Refill(b, times[0]);
            Schedule(b1, times) && After(b, times) == After(b1, times) && Grants(b, times) == Grants(b1, times)
  {
    var b1 := Refill(b, times[0]);
    assert Schedule(b1, times) by {
      forall i | 0 <= i < |times| ensures b1.lastRefill <= times[i] {
        assert i == 0 || times[0] <= times[i];
      }
    }
    var front := times[..|times| - 1];
    if |times| == 1 {
      assert front == [];
    } else {
      ScheduleFront(b, times);
      assert front[0] == times[0];
      RefillIsIdempotentFirst(b, front);
    }
  }

  /** Tokens credited by the refills of a run in which no refill hits the cap. */
  function Credited(b: Bucket, times: seq<nat>): nat {
    if times == [] then 0
    else
      var prev := After(b, times[..|times| - 1]);
      Credited(b, times[..|times| - 1]) + NewTokens(prev, times[|times| - 1])
  }

  predicate CapNeverHit(b: Bucket, times: seq<nat>) {
    times == [] ||
    (var prev := After(b, times[..|times| - 1]);
     CapNeverHit(b, times[..|times| - 1]) && prev.tokens + NewTokens(prev, times[|times| - 1]) <= RATE_BURST)
  }

  /**
   * Dropping the fraction at each refill costs less than half the rate: over a run of `T` nanoseconds in
   * which the cap is not hit, more than 50 tokens a second arrive, short of half a token, and all of them
   * are either granted or still in the bucket.
   */
  lemma {:induction false} LowerBound(b: Bucket, times: seq<nat>)
    requires b.tokens <= RATE_BURST
    requires Schedule(b, times) && times != []
    requires CapNeverHit(b, times)
    ensures 2 * TICK * Credited(b, times) + TICK > times[|times| - 1] - b.lastRefill
    ensures Grants(b, times) + After(b, times).tokens == b.tokens + Credited(b, times)
  {
    LowerBoundAtRefill(b, times);
    LastRefillIsPast(b, times);
  }

  lemma HalfOfElapsed(e: nat)
    ensures e / TICK > 0 ==> e <= 2 * TICK * (e / TICK)
    ensures e / TICK == 0 ==> e < TICK
  {}

  lemma {:induction false} LowerBoundAtRefill(b: Bucket, times: seq<nat>)
    requires b.tokens <= RATE_BURST
    requires Schedule(b, times)
    requires CapNeverHit(b, times)
    ensures 2 * TICK * Credited(b, times) >= After(b, times).lastRefill - b.lastRefill
    ensures Grants(b, times) + After(b, times).tokens == b.tokens + Credited(b, times)
    ensures times != [] ==> times[|times| - 1] - After(b, times).lastRefill < TICK
  {
    if times != [] {
      ScheduleFront(b, times);
      LastRefillIsPast(b, times);
      var front, now := times[..|times| - 1], times[|times| - 1];
      LowerBoundAtRefill(b, front);
      HalfOfElapsed(Elapsed(After(b, front), now));
    }
  }

  /** A peer whose calls are at least 10 ms apart is never refused. */
  lemma {:induction false} SpacedCallsAreGranted(b: Bucket, times: seq<nat>)
    requires 0 < b.tokens <= RATE_BURST
    requires Schedule(b, times)
    requires forall i :: 0 < i < |times| ==> times[i - 1] + TICK <= times[i]
    ensures Grants(b, times) == |times|
    ensures |times| > 1 ==> After(b, times).lastRefill == times[|times| - 1]
  {
    if times != [] {
      var front := times[..|times| - 1];
      ScheduleFront(b, times);
      LastRefillIsPast(b, times);
      SpacedCallsAreGranted(b, front);
      LastRefillIsPast(b, front);
      if front != [] {
        assert front[|front| - 1] == times[|times| - 2];
        assert times[|times| - 2] + TICK <= times[|times| - 1];
      }
    }
  }

  // ---- exact balances -------------------------------------------------------------------

  /** Calls that come while there are tokens are all granted, each for at most one of them. */
  lemma {:induction false} TokensAreGrants(b: Bucket, times: seq<nat>)
    requires |times| <= b.tokens <= RATE_BURST
    ensures Grants(b, times) == |times| && After(b, times).tokens >= b.tokens - |times|
  {
    if times != [] {
      TokensAreGrants(b, times[..|times| - 1]);
    }
  }

  /** The first call alone decides on a refill that fills the bucket: from then on a burst of 200 passes whole. */
  lemma IdleBucketIsFull(b: Bucket, times: seq<nat>)
    requires Schedule(b, times) && |times| <= 200
    requires times != [] ==> times[0] >= b.lastRefill + 200 * 10_000_000
    ensures Grants(b, times) == |times|
  {
    if times != [] {
      assert Elapsed(b, times[0]) / TICK >= 200;
      RefillIsIdempotentFirst(b, times);
      TokensAreGrants(Refill(b, times[0]), times);
    }
  }

  /** The same time, n times. */
  function Burst(now: nat, n: nat): seq<nat> { seq(n, _ => now) }

  lemma {:induction false} SettledBurst(b: Bucket, now: nat, n: nat)
    requires b.tokens <= RATE_BURST && NewTokens(b, now) == 0
    ensures Grants(b, Burst(now, n)) == Min(n, b.tokens)
    ensures After(b, Burst(now, n)) == b.(tokens := b.tokens - Min(n, b.tokens))
  {
    if n > 0 {
      assert Burst(now, n)[..n - 1] == Burst(now, n - 1);
      SettledBurst(b, now, n - 1);
    }
  }

  /**
   * Of any number of calls at one moment exactly as many are granted as the bucket holds: what it held before plus a
   * token for every whole tick since its last refill, up to 200.
   */
  lemma BurstIsExact(b: Bucket, now: nat, n: nat)
    requires b.tokens <= RATE_BURST
    ensures var ticks := if now >= b.lastRefill then (now - b.lastRefill) / 10_000_000 else 0;
            Grants(b, Burst(now, n)) == Min(n, Min(200, b.tokens + ticks))
  {
    if n > 0 {
      var b1, times := Refill(b, now), Burst(now, n);
      FirstRefill(b, now, n);
      SettledBurst(b1, now, n);
    }
  }

  lemma {:induction false} FirstRefill(b: Bucket, now: nat, n: nat)
    requires n > 0
    ensures Grants(b, Burst(now, n)) == Grants(Refill(b, now), Burst(now, n))
    ensures After(b, Burst(now, n)) == After(Refill(b, now), Burst(now, n))
  {
    assert Burst(now, n)[..n - 1] == Burst(now, n - 1);
    if n > 1 {
      FirstRefill(b, now, n - 1);
    }
  }

  /** The bound of `LowerBound` is met: calls just short of two ticks apart bring an empty bucket one token each. */
  lemma {:induction false} FractionsAreDropped(b: Bucket, times: seq<nat>)
    requires b.tokens == 0 && forall i :: 0 <= i < |times| ==> times[i] == b.lastRefill + (i + 1) * (2 * TICK - 1)
    ensures Grants(b, times) == Credited(b, times) == |times|
    ensures After(b, times) == Bucket(0, b.lastRefill + |times| * (2 * TICK - 1))
  {
    if times != [] {
      FractionsAreDropped(b, times[..|times| - 1]);
      assert (2 * TICK - 1) / TICK == 1;
    }
  }
}
