/** The token bucket that rate-limits adaptive retries.  Times are seconds as reals;
    each refill adds whole tokens and forgets the fraction. */
module TokenBucket {
  import opened Arithmetic

  datatype Bucket = Bucket(capacity: int, tokens: int, refillRate: real, lastRefill: real)

  // ---------------------------------------------------------------- specification

  function WholeTokens(elapsed: real, rate: real): int {
    Truncate(elapsed * rate)
  }

  function Earned(b: Bucket, now: real): int {
    WholeTokens(now - b.lastRefill, b.refillRate)
  }

  function Refilled(b: Bucket, now: real): Bucket {
    if Earned(b, now) > 0
    then b.(tokens := Min(b.capacity, b.tokens + Earned(b, now)), lastRefill := now)
    else b
  }

  predicate Succeeds(b: Bucket, now: real) {
    Refilled(b, now).tokens > 0
  }

  function Consumed(b: Bucket, now: real): Bucket {
    var b := Refilled(b, now);
    if b.tokens > 0 then b.(tokens := b.tokens - 1) else b
  }

  function Created(capacity: int, refillRate: real, now: real): Bucket {
    Bucket(capacity, capacity, refillRate, now)
  }

  // --------------------------------------------------------------- implementation

  class Limiter {
    const capacity: int
    const refillRate: real
    var tokens: int
    var lastRefill: real

    ghost function Value(): Bucket
      reads this
    {
      Bucket(capacity, tokens, refillRate, lastRefill)
    }

    constructor (capacity: int, refillRate: real, now: real)
      ensures Value() == Created(capacity, refillRate, now)
    {
      this.capacity := capacity;
      this.refillRate := refillRate;
      tokens := capacity;
      lastRefill := now;
    }

    method Refill(now: real)
      modifies this
      ensures Value() == Refilled(old(Value()), now)
    {
      var elapsed := now - lastRefill;
      var tokensToAdd := WholeTokens(elapsed, refillRate);
      if tokensToAdd > 0 {
        tokens := Min(capacity, tokens + tokensToAdd);
        lastRefill := now;
      }
    }

    method TryConsume(now: real) returns (ok: bool)
      modifies this
      ensures Value() == Consumed(old(Value()), now)
      ensures ok <==> Succeeds(old(Value()), now)
    {
      Refill(now);
      if tokens > 0 {
        tokens := tokens - 1;
        return true;
      }
      return false;
    }
  }

  // ------------------------------------------------------------------------- runs

  /** A limiter's bucket: never over capacity, and never below zero unless the
      configured capacity is. */
  ghost predicate Inv(b: Bucket) {
    Min(0, b.capacity) <= b.tokens <= b.capacity
  }

  /** Calls at non-decreasing times, none before the last refill. */
  ghost predicate Ordered(from: real, times: seq<real>) {
    && (times != [] ==> from <= times[0])
    && forall i, j :: 0 <= i < j < |times| ==> times[i] <= times[j]
  }

  ghost function Final(b: Bucket, times: seq<real>): Bucket
    decreases |times|
  {
    if times == [] then b else Final(Consumed(b, times[0]), times[1..])
  }

  ghost function Successes(b: Bucket, times: seq<real>): nat
    decreases |times|
  {
    if times == [] then 0
    else (if Succeeds(b, times[0]) then 1 else 0) + Successes(Consumed(b, times[0]), times[1..])
  }

  ghost function Rate(b: Bucket): real {
    if b.refillRate > 0.0 then b.refillRate else 0.0
  }

  ghost function Size(capacity: int): int {
    if capacity > 0 then capacity else 0
  }

  lemma Difference(r: real, x: real, y: real)
    ensures r * (y - x) == r * y - r * x
  {
  }

  lemma Monotone(r: real, x: real, y: real)
    requires r >= 0.0 && x <= y
    ensures r * (y - x) >= 0.0
    ensures r * x <= r * y
  {
    Difference(r, x, y);
    assert r * (y - x) >= 0.0;
  }

  // A bucket's clock, scaled so that one unit earns one token.  The scale is kept
  // abstract so that the accounting below is linear.

  datatype Meter = Meter(capacity: int, tokens: int, last: real)

  ghost function Metered(b: Bucket, scale: real -> real): Meter {
    Meter(b.capacity, b.tokens, scale(b.lastRefill))
  }

  ghost function MeterRefilled(m: Meter, u: real): Meter {
    if u - m.last >= 1.0 then Meter(m.capacity, Min(m.capacity, m.tokens + (u - m.last).Floor), u) else m
  }

  ghost function MeterConsumed(m: Meter, u: real): Meter {
    var m := MeterRefilled(m, u);
    if m.tokens > 0 then m.(tokens := m.tokens - 1) else m
  }

  lemma EarnedIsMetered(b: Bucket, now: real)
    requires b.lastRefill <= now
    ensures Earned(b, now) > 0 <==> Rate(b) * now - Rate(b) * b.lastRefill >= 1.0
    ensures Earned(b, now) > 0 ==> Earned(b, now) == (Rate(b) * now - Rate(b) * b.lastRefill).Floor
  {
    if b.refillRate > 0.0 {
      EarnedProduct(now - b.lastRefill, b.refillRate);
      Difference(b.refillRate, b.lastRefill, now);
    } else {
      NothingEarned(now - b.lastRefill, b.refillRate);
      assert Rate(b) * now == 0.0 && Rate(b) * b.lastRefill == 0.0;
    }
  }

  lemma EarnedProduct(elapsed: real, rate: real)
    requires elapsed >= 0.0 && rate > 0.0
    ensures elapsed * rate == rate * elapsed >= 0.0
  {
  }

  lemma NothingEarned(elapsed: real, rate: real)
    requires elapsed >= 0.0 && rate <= 0.0
    ensures elapsed * rate <= 0.0 && Truncate(elapsed * rate) <= 0
  {
  }

  ghost predicate StepMetered(b: Bucket, now: real, scale: real -> real) {
    && Metered(Consumed(b, now), scale) == MeterConsumed(Metered(b, scale), scale(now))
    && (Succeeds(b, now) <==> MeterRefilled(Metered(b, scale), scale(now)).tokens > 0)
    && b.lastRefill <= Consumed(b, now).lastRefill <= now
  }

  /** `scale` turns the times of a bucket with this rate into its meter's units. */
  ghost predicate Scales(scale: real -> real, refillRate: real) {
    && (forall x, y :: x <= y ==> scale(x) <= scale(y))
    && (forall b: Bucket, now :: b.refillRate == refillRate && b.lastRefill <= now ==> StepMetered(b, now, scale))
  }

  ghost function ScaleOf(b: Bucket): real -> real {
    var r := Rate(b);
    (t: real) => r * t
  }

  lemma StepOnScale(b: Bucket, now: real)
    requires b.lastRefill <= now
    ensures StepMetered(b, now, ScaleOf(b))
  {
    EarnedIsMetered(b, now);
    var scale := ScaleOf(b);
    assert scale(now) == Rate(b) * now;
    assert scale(b.lastRefill) == Rate(b) * b.lastRefill;
  }

  lemma ScaleOfScales(b: Bucket)
    ensures Scales(ScaleOf(b), b.refillRate)
  {
    var scale := ScaleOf(b);
    forall x, y | x <= y ensures scale(x) <= scale(y) {
      Monotone(Rate(b), x, y);
    }
    forall b': Bucket, now | b'.refillRate == b.refillRate && b'.lastRefill <= now ensures StepMetered(b', now, scale) {
      StepOnScale(b', now);
      assert ScaleOf(b') == scale;
    }
  }

  ghost function Scaled(times: seq<real>, scale: real -> real): (us: seq<real>)
    ensures |us| == |times| && forall i :: 0 <= i < |times| ==> us[i] == scale(times[i])
  {
    seq(|times|, i requires 0 <= i < |times| => scale(times[i]))
  }

  ghost function MeterSuccesses(m: Meter, us: seq<real>): nat
    decreases |us|
  {
    if us == [] then 0
    else (if MeterRefilled(m, us[0]).tokens > 0 then 1 else 0) + MeterSuccesses(MeterConsumed(m, us[0]), us[1..])
  }

  ghost function MeterFinal(m: Meter, us: seq<real>): Meter
    decreases |us|
  {
    if us == [] then m else MeterFinal(MeterConsumed(m, us[0]), us[1..])
  }

  lemma {:induction false} RunIsMetered(b: Bucket, times: seq<real>, scale: real -> real)
    requires Ordered(b.lastRefill, times) && Scales(scale, b.refillRate)
    ensures Successes(b, times) == MeterSuccesses(Metered(b, scale), Scaled(times, scale))
    decreases |times|
  {
    if times != [] {
      assert StepMetered(b, times[0], scale);
      RunIsMetered(Consumed(b, times[0]), times[1..], scale);
      assert Scaled(times, scale)[1..] == Scaled(times[1..], scale);
    }
  }

  // --------------------------------------------------------- accounting on the meter

  ghost predicate MeterInv(m: Meter) {
    Min(0, m.capacity) <= m.tokens <= m.capacity
  }

  /** Tokens minus clock: consuming lowers it by one, refilling never raises it. */
  lemma {:induction false} SuccessesArePaid(m: Meter, us: seq<real>, end: real)
    requires MeterInv(m) && Ordered(m.last, us)
    requires m.last <= end && forall i :: 0 <= i < |us| ==> us[i] <= end
    ensures MeterInv(MeterFinal(m, us)) && MeterFinal(m, us).last <= end && MeterFinal(m, us).capacity == m.capacity
    ensures MeterSuccesses(m, us) as real + MeterFinal(m, us).tokens as real - MeterFinal(m, us).last
         <= m.tokens as real - m.last
    decreases |us|
  {
    if us != [] {
      SuccessesArePaid(MeterConsumed(m, us[0]), us[1..], end);
    }
  }

  lemma {:induction false} NoCapacityNoSuccess(m: Meter, us: seq<real>)
    requires MeterInv(m) && m.capacity <= 0
    ensures MeterSuccesses(m, us) == 0
    decreases |us|
  {
    if us != [] {
      NoCapacityNoSuccess(MeterConsumed(m, us[0]), us[1..]);
    }
  }

  lemma MeterBound(m: Meter, us: seq<real>, end: real)
    requires MeterInv(m) && Ordered(m.last, us)
    requires m.last <= end && forall i :: 0 <= i < |us| ==> us[i] <= end
    ensures MeterSuccesses(m, us) as real <= Size(m.tokens) as real + (end - m.last)
  {
    if m.capacity <= 0 {
      NoCapacityNoSuccess(m, us);
    } else {
      SuccessesArePaid(m, us, end);
    }
  }

  lemma MeterWindow(m: Meter, us: seq<real>)
    requires MeterInv(m) && us != [] && Ordered(m.last, us)
    ensures MeterSuccesses(m, us) as real < Size(m.capacity) as real + (us[|us| - 1] - us[0]) + 1.0
  {
    var r := MeterRefilled(m, us[0]);
    assert MeterRefilled(r, us[0]) == r;
    MeterBound(r, us, us[|us| - 1]);
  }

  // --------------------------------------------------------------------- main results

  lemma ScaledOrdered(from: real, times: seq<real>, scale: real -> real)
    requires Ordered(from, times) && forall x, y :: x <= y ==> scale(x) <= scale(y)
    ensures Ordered(scale(from), Scaled(times, scale))
  {
  }

  lemma InvIsKept(b: Bucket, now: real)
    requires Inv(b)
    ensures Inv(Consumed(b, now)) && Consumed(b, now).capacity == b.capacity
  {
  }

  lemma LimitsAreKept(b: Bucket, now: real)
    ensures Consumed(b, now).capacity == b.capacity && Consumed(b, now).refillRate == b.refillRate
  {
  }

  lemma {:induction false} RunKeepsInv(b: Bucket, times: seq<real>)
    requires Inv(b)
    ensures Inv(Final(b, times)) && Final(b, times).capacity == b.capacity
    decreases |times|
  {
    if times != [] {
      InvIsKept(b, times[0]);
      RunKeepsInv(Consumed(b, times[0]), times[1..]);
    }
  }

  /** What the refill rate earns from time `x` to time `y`. */
  ghost function EarnedBetween(b: Bucket, x: real, y: real): real {
    ScaleOf(b)(y) - ScaleOf(b)(x)
  }

  lemma EarnedBetweenIsRateTimesTime(b: Bucket, x: real, y: real)
    ensures EarnedBetween(b, x, y) == Rate(b) * (y - x)
  {
    Difference(Rate(b), x, y);
  }

  /** In any window of calls, whatever came before it: less than one token more than
      the capacity plus what the rate earns inside the window. */
  lemma BoundInWindow(b: Bucket, window: seq<real>)
    requires Inv(b) && window != [] && Ordered(b.lastRefill, window)
    ensures Successes(b, window) as real
          < Size(b.capacity) as real + EarnedBetween(b, window[0], window[|window| - 1]) + 1.0
  {
    var scale := ScaleOf(b);
    ScaleOfScales(b);
    RunIsMetered(b, window, scale);
    ScaledOrdered(b.lastRefill, window, scale);
    MeterWindow(Metered(b, scale), Scaled(window, scale));
  }

  /** From the start of a bucket's life, or from any bucket: no more than what it holds
      plus what the rate earns since its last refill. */
  lemma BoundFrom(b: Bucket, times: seq<real>)
    requires Inv(b) && times != [] && Ordered(b.lastRefill, times)
    ensures Successes(b, times) as real
         <= Size(b.tokens) as real + EarnedBetween(b, b.lastRefill, times[|times| - 1])
  {
    var scale := ScaleOf(b);
    ScaleOfScales(b);
    RunIsMetered(b, times, scale);
    ScaledOrdered(b.lastRefill, times, scale);
    var us := Scaled(times, scale);
    MeterBound(Metered(b, scale), us, us[|us| - 1]);
  }

  lemma BoundSinceCreation(capacity: int, refillRate: real, now: real, times: seq<real>)
    requires times != [] && Ordered(now, times)
    ensures var b := Created(capacity, refillRate, now);
      Successes(b, times) as real <= Size(capacity) as real + EarnedBetween(b, now, times[|times| - 1])
  {
    BoundFrom(Created(capacity, refillRate, now), times);
  }

  /** Despite the lost fractions nobody starves: a call succeeds exactly when a token is
      left or the rate has earned a whole one since the last refill. */
  lemma SucceedsExactly(b: Bucket, now: real)
    requires Inv(b) && b.capacity > 0 && b.lastRefill <= now
    ensures Succeeds(b, now) <==> b.tokens > 0 || Rate(b) * (now - b.lastRefill) >= 1.0
  {
    EarnedIsMetered(b, now);
    Difference(Rate(b), b.lastRefill, now);
  }
}
