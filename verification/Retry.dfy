/** Retry delays and the attempt loop of the enhanced retryer.  Durations are integers;
    random numbers, deadlines, cancellation and the operation's results are oracles. */
module Retry {
  import opened Arithmetic

  datatype JitterType = NoJitter | Full | Equal | Decorrelated

  datatype Strategy = Exponential | Linear | Fixed | Fibonacci | Polynomial

  datatype Config = Config(maxRetries: int, initialDelay: int, maxDelay: int, multiplier: real,
                           jitterEnabled: bool, jitterType: JitterType, jitterFactor: real, strategy: Strategy,
                           respectRetryAfter: bool, maxRetryAfter: int)

  // ------------------------------------------------------------------------- backoff

  function Fib(n: int): int {
    if n <= 1 then 1 else Fib(n - 1) + Fib(n - 2)
  }

  function Pow(x: real, n: nat): real {
    if n == 0 then 1.0 else x * Pow(x, n - 1)
  }

  function Grown(base: real, power: real): int {
    Truncate(base * power)
  }

  function Backoff(attempt: int, base: int, strategy: Strategy, multiplier: real): int {
    if attempt <= 0 then base
    else match strategy
      case Fixed => base
      case Linear => base * attempt
      case Exponential => Grown(base as real, Pow(multiplier, attempt - 1))
      case Fibonacci => base * Fib(attempt)
      case Polynomial => base * (attempt * attempt)
  }

  class BackoffCalculator {
    var fibonacciCache: seq<int>

    /** Empty, or a prefix of 1, 1, 2, 3, 5, ... */
    ghost predicate Valid()
      reads this
    {
      && |fibonacciCache| != 1
      && forall i :: 0 <= i < |fibonacciCache| ==> fibonacciCache[i] == Fib(i)
    }

    constructor ()
      ensures Valid() && fibonacciCache == []
    {
      fibonacciCache := [];
    }

    method FibonacciNumber(n: int) returns (r: int)
      requires Valid()
      modifies this
      ensures Valid() && r == Fib(n) && old(fibonacciCache) <= fibonacciCache
    {
      if n <= 0 {
        return 1;
      }
      if n == 1 {
        return 1;
      }
      while |fibonacciCache| <= n
        invariant Valid() && old(fibonacciCache) <= fibonacciCache
        decreases n - |fibonacciCache|
      {
        if |fibonacciCache| == 0 {
          fibonacciCache := [1, 1];
        } else {
          var next := fibonacciCache[|fibonacciCache| - 1] + fibonacciCache[|fibonacciCache| - 2];
          fibonacciCache := fibonacciCache + [next];
        }
      }
      return fibonacciCache[n];
    }

    method Calculate(attempt: int, base: int, strategy: Strategy, multiplier: real) returns (r: int)
      requires Valid()
      modifies this
      ensures Valid() && r == Backoff(attempt, base, strategy, multiplier) && old(fibonacciCache) <= fibonacciCache
    {
      if attempt <= 0 {
        return base;
      }
      match strategy {
        case Fixed => r := base;
        case Linear => r := base * attempt;
        case Exponential => r := Grown(base as real, Pow(multiplier, attempt - 1));
        case Fibonacci =>
          var fib := FibonacciNumber(attempt);
          r := base * fib;
        case Polynomial => r := base * (attempt * attempt);
      }
    }
  }

  lemma TruncateBetween(x: real, y: real)
    requires 0.0 <= x <= y
    ensures 0 <= Truncate(x) <= Truncate(y)
  {
  }

  lemma ProductMonotone(a: real, x: real, y: real)
    requires a >= 0.0 && x <= y
    ensures a * x <= a * y
  {
  }

  lemma ShareWithin(d: real, share: real, whole: real)
    requires d >= 0.0 && 0.0 <= share <= whole
    ensures 0.0 <= d * share <= d * whole
  {
    ProductMonotone(d, 0.0, share);
    ProductMonotone(d, share, whole);
  }

  lemma IntProductMonotone(a: int, x: int, y: int)
    requires a >= 0 && x <= y
    ensures a * x <= a * y
  {
  }

  lemma {:induction false} FibGrows(n: nat)
    ensures 1 <= Fib(n) <= Fib(n + 1)
  {
    if n >= 2 {
      FibGrows(n - 1);
      FibGrows(n - 2);
    }
  }

  lemma {:induction false} PowGrows(x: real, n: nat)
    requires x >= 1.0
    ensures 1.0 <= Pow(x, n) <= Pow(x, n + 1)
  {
    if n > 0 {
      PowGrows(x, n - 1);
      ProductMonotone(x, Pow(x, n - 1), Pow(x, n));
    }
    ProductMonotone(Pow(x, n), 1.0, x);
  }

  lemma {:induction false} PowIsPositive(x: real, n: nat)
    requires x >= 0.0
    ensures Pow(x, n) >= 0.0
  {
    if n > 0 {
      PowIsPositive(x, n - 1);
      ProductMonotone(x, 0.0, Pow(x, n - 1));
    }
  }

  /** Each strategy waits at least as long before a later retry. */
  lemma BackoffNeverShrinks(attempt: int, base: int, strategy: Strategy, multiplier: real)
    requires attempt >= 1 && base >= 0 && (strategy.Exponential? ==> multiplier >= 1.0)
    ensures 0 <= Backoff(attempt, base, strategy, multiplier) <= Backoff(attempt + 1, base, strategy, multiplier)
  {
    match strategy
    case Fixed =>
    case Linear => IntShare(base, attempt, attempt + 1);
    case Exponential => ExponentialGrows(attempt - 1, base as real, multiplier);
    case Fibonacci =>
      FibGrows(attempt);
      IntShare(base, Fib(attempt), Fib(attempt + 1));
    case Polynomial =>
      Squares(attempt);
      IntShare(base, attempt * attempt, (attempt + 1) * (attempt + 1));
  }

  lemma IntShare(a: int, x: int, y: int)
    requires a >= 0 && 0 <= x <= y
    ensures 0 <= a * x <= a * y
  {
    IntProductMonotone(a, 0, x);
    IntProductMonotone(a, x, y);
  }

  lemma GrownMore(base: real, x: real, y: real)
    requires base >= 0.0 && 0.0 <= x <= y
    ensures 0 <= Grown(base, x) <= Grown(base, y)
  {
    ShareWithin(base, x, y);
    TruncateBetween(base * x, base * y);
  }

  lemma ExponentialGrows(n: nat, base: real, multiplier: real)
    requires base >= 0.0 && multiplier >= 1.0
    ensures 0 <= Grown(base, Pow(multiplier, n)) <= Grown(base, Pow(multiplier, n + 1))
  {
    PowGrows(multiplier, n);
    GrownMore(base, Pow(multiplier, n), Pow(multiplier, n + 1));
  }

  lemma Squares(n: int)
    requires n >= 0
    ensures 0 <= n * n <= (n + 1) * (n + 1)
  {
    assert (n + 1) * (n + 1) == n * n + 2 * n + 1;
  }

  function PowerOfTwo(n: nat): int {
    if n == 0 then 1 else 2 * PowerOfTwo(n - 1)
  }

  lemma {:induction false} PowOfTwo(n: nat)
    ensures Pow(2.0, n) == PowerOfTwo(n) as real
  {
    if n > 0 {
      PowOfTwo(n - 1);
    }
  }

  lemma GrownWhole(base: int, power: int)
    ensures Grown(base as real, power as real) == base * power
  {
    assert base as real * power as real == (base * power) as real;
    TruncateInt(base * power);
  }

  lemma TruncateInt(n: int)
    ensures Truncate(n as real) == n
  {
  }

  /** How the delay grows from one retry to the next: with a multiplier of two it doubles;
      linear backoff adds the initial delay each time; quadratic backoff adds odd multiples
      of it; under Fibonacci backoff each delay is the sum of the two before.  The first
      retry waits the initial delay under every strategy. */
  lemma BackoffRecurs(attempt: int, base: int, strategy: Strategy, multiplier: real)
    requires attempt >= 1
    ensures Backoff(1, base, strategy, multiplier) == base
    ensures forall early :: early <= 0 ==> Backoff(early, base, strategy, multiplier) == base
    ensures var next, last := Backoff(attempt + 1, base, strategy, multiplier), Backoff(attempt, base, strategy, multiplier);
      match strategy
      case Fixed => next == last
      case Linear => next == last + base
      case Exponential => multiplier == 2.0 ==> next == 2 * last
      case Fibonacci => Backoff(attempt + 2, base, strategy, multiplier) == next + last && (attempt == 1 ==> next == 2 * base)
      case Polynomial => next == last + base * (2 * attempt + 1)
  {
    TruncateInt(base);
    match strategy
    case Fixed =>
    case Linear =>
    case Exponential =>
      assert Pow(multiplier, 0) == 1.0;
      if multiplier == 2.0 {
        Doubles(attempt - 1, base);
      }
    case Fibonacci => SumOfShares(base, Fib(attempt + 1), Fib(attempt));
    case Polynomial =>
      assert (attempt + 1) * (attempt + 1) == attempt * attempt + (2 * attempt + 1);
      SumOfShares(base, attempt * attempt, 2 * attempt + 1);
  }

  lemma SumOfShares(base: int, x: int, y: int)
    ensures base * (x + y) == base * x + base * y
  {
  }

  lemma Doubles(n: nat, base: int)
    ensures Grown(base as real, Pow(2.0, n + 1)) == 2 * Grown(base as real, Pow(2.0, n))
  {
    PowOfTwo(n);
    PowOfTwo(n + 1);
    GrownWhole(base, PowerOfTwo(n));
    GrownWhole(base, PowerOfTwo(n + 1));
    SumOfShares(base, PowerOfTwo(n), PowerOfTwo(n));
  }

  /** `next` is `multiplier` times `last`, but for the fractions that both lost. */
  ghost predicate AboutTimes(multiplier: real, last: int, next: int) {
    multiplier * last as real < (next + 1) as real && next as real <= multiplier * (last + 1) as real
  }

  /** With any other multiplier each delay is the multiplier times the one before, but for
      the fractions dropped. */
  lemma ExponentialFactor(attempt: int, base: int, multiplier: real)
    requires attempt >= 1 && base >= 0 && multiplier >= 0.0
    ensures AboutTimes(multiplier, Backoff(attempt, base, Exponential, multiplier), Backoff(attempt + 1, base, Exponential, multiplier))
  {
    var p := Pow(multiplier, attempt - 1);
    PowIsPositive(multiplier, attempt - 1);
    assert Backoff(attempt, base, Exponential, multiplier) == Grown(base as real, p);
    assert Backoff(attempt + 1, base, Exponential, multiplier) == Grown(base as real, Pow(multiplier, attempt));
    PowStep(multiplier, attempt);
    GrownFactor(base as real, multiplier, p, Pow(multiplier, attempt));
  }

  lemma PowStep(x: real, n: int)
    requires n >= 1
    ensures Pow(x, n) == x * Pow(x, n - 1)
  {
  }

  lemma GrownFactor(base: real, multiplier: real, power: real, next: real)
    requires base >= 0.0 && multiplier >= 0.0 && power >= 0.0 && next == multiplier * power
    ensures AboutTimes(multiplier, Grown(base, power), Grown(base, next))
  {
    var g, h := GrownFrom(base, multiplier, power, next);
    TruncatedFactor(multiplier, g, h);
  }

  lemma GrownFrom(base: real, multiplier: real, power: real, next: real) returns (g: real, h: real)
    requires base >= 0.0 && multiplier >= 0.0 && power >= 0.0 && next == multiplier * power
    ensures g >= 0.0 && h == multiplier * g && h >= 0.0
    ensures Grown(base, power) == Truncate(g) && Grown(base, next) == Truncate(h)
  {
    g, h := base * power, base * next;
    ProductMonotone(base, 0.0, power);
    ProductMonotone(multiplier, 0.0, g);
    NextGrown(base, multiplier, power);
  }

  lemma TruncatedFactor(multiplier: real, g: real, h: real)
    requires multiplier >= 0.0 && g >= 0.0 && h == multiplier * g && h >= 0.0
    ensures AboutTimes(multiplier, Truncate(g), Truncate(h))
  {
    var n, m := Truncate(g), Truncate(h);
    TruncateNear(g, n);
    TruncateNear(h, m);
    FactorBounds(multiplier, g, n as real, (n + 1) as real, h, m as real, (m + 1) as real);
  }

  lemma FactorBounds(multiplier: real, g: real, x: real, x': real, h: real, y: real, y': real)
    requires multiplier >= 0.0 && h == multiplier * g && x <= g < x' && y <= h < y'
    ensures multiplier * x < y' && y <= multiplier * x'
  {
    ProductMonotone(multiplier, x, g);
    ProductMonotone(multiplier, g, x');
  }

  lemma NextGrown(base: real, multiplier: real, power: real)
    ensures base * (multiplier * power) == multiplier * (base * power)
  {
  }

  lemma TruncateNear(x: real, n: int)
    requires x >= 0.0 && n == Truncate(x)
    ensures n as real <= x < (n + 1) as real
  {
  }

  lemma BackoffIsPositive(attempt: int, base: int, strategy: Strategy, multiplier: real)
    requires base >= 0 && multiplier >= 0.0
    ensures Backoff(attempt, base, strategy, multiplier) >= 0
  {
    if attempt >= 1 {
      match strategy
      case Exponential =>
        PowIsPositive(multiplier, attempt - 1);
        GrownMore(base as real, Pow(multiplier, attempt - 1), Pow(multiplier, attempt - 1));
      case _ => BackoffNeverShrinks(attempt, base, strategy, multiplier);
    }
  }

  // -------------------------------------------------------------------------- jitter

  function Jittered(previous: int, delay: int, kind: JitterType, factor: real, random: real): int {
    if delay <= 0 || factor <= 0.0 then delay
    else match kind
      case NoJitter => delay
      case Full => Scaled(delay, 1.0 - factor) + Portion(delay as real, random, factor)
      case Equal => delay / 2 + Portion((delay / 2) as real, random, factor)
      case Decorrelated => Scaled(Ceiling(previous, delay), random)
  }

  function Scaled(delay: int, x: real): int {
    Truncate(delay as real * x)
  }

  function Portion(delay: real, random: real, factor: real): int {
    Truncate(delay * random * factor)
  }

  /** What decorrelated jitter stays below: the last delay, if there is one that is less
      than three times the computed delay.  (The code's own comment has three times the
      last delay.) */
  function Ceiling(previous: int, delay: int): int {
    if 0 < previous < Scaled(delay, 3.0) then previous else Scaled(delay, 3.0)
  }

  function Remembered(previous: int, delay: int, kind: JitterType, factor: real, random: real): int {
    if delay > 0 && factor > 0.0 && kind.Decorrelated? then Jittered(previous, delay, kind, factor, random) else previous
  }

  class JitterCalculator {
    var previousDelay: int

    constructor ()
      ensures previousDelay == 0
    {
      previousDelay := 0;
    }

    method Calculate(delay: int, kind: JitterType, factor: real, random: real) returns (r: int)
      modifies this
      ensures r == Jittered(old(previousDelay), delay, kind, factor, random)
      ensures previousDelay == Remembered(old(previousDelay), delay, kind, factor, random)
    {
      if delay <= 0 || factor <= 0.0 {
        return delay;
      }
      match kind
      case NoJitter => return delay;
      case Full =>
        var jitter := Portion(delay as real, random, factor);
        return Scaled(delay, 1.0 - factor) + jitter;
      case Equal =>
        var halfDelay := delay / 2;
        var jitter := Portion(halfDelay as real, random, factor);
        return halfDelay + jitter;
      case Decorrelated =>
        var maxJitterDelay := Scaled(delay, 3.0);
        if previousDelay > 0 && previousDelay < maxJitterDelay {
          maxJitterDelay := previousDelay;
        }
        var newDelay := Scaled(maxJitterDelay, random);
        previousDelay := newDelay;
        return newDelay;
    }
  }

  predicate Unit(x: real) {
    0.0 <= x < 1.0
  }

  lemma UnitShare(random: real, factor: real)
    requires Unit(random) && factor >= 0.0
    ensures 0.0 <= random * factor <= factor
  {
    ProductMonotone(factor, 0.0, random);
    ProductMonotone(factor, random, 1.0);
  }

  lemma Associate(x: real, y: real, z: real)
    ensures x * y * z == x * (y * z)
  {
  }

  lemma SharesNested(d: real, share: real, factor: real)
    requires d >= 0.0 && 0.0 <= share <= factor <= 1.0
    ensures 0.0 <= d * share <= d * factor <= d
  {
    ProductMonotone(d, 0.0, share);
    ProductMonotone(d, share, factor);
    ProductMonotone(d, factor, 1.0);
  }

  lemma PortionRoom(d: real, random: real, factor: real) returns (q: real, taken: real)
    requires d >= 0.0 && Unit(random) && 0.0 <= factor <= 1.0
    ensures q == d * random * factor && taken == d * factor && 0.0 <= q <= taken <= d
  {
    q, taken := d * random * factor, d * factor;
    UnitShare(random, factor);
    Associate(d, random, factor);
    SharesNested(d, random * factor, factor);
  }

  lemma PortionIs(d: real, random: real, factor: real, q: real)
    requires q == d * random * factor
    ensures Portion(d, random, factor) == Truncate(q)
  {
  }

  lemma LeftIs(delay: int, d: real, factor: real, left: real)
    requires d == delay as real && left == d - d * factor
    ensures Scaled(delay, 1.0 - factor) == Truncate(left)
  {
    assert d * (1.0 - factor) == d - d * factor;
  }

  /** The portion and what the factor leaves, before they are truncated. */
  lemma Parts(delay: int, d: real, random: real, factor: real) returns (q: real, left: real)
    requires delay >= 0 && d == delay as real && Unit(random) && 0.0 <= factor <= 1.0
    ensures 0.0 <= q && 0.0 <= left && q + left <= d
    ensures Portion(d, random, factor) == Truncate(q) && Scaled(delay, 1.0 - factor) == Truncate(left)
  {
    var taken;
    q, taken := PortionRoom(d, random, factor);
    left := d - taken;
    PortionIs(d, random, factor, q);
    LeftIs(delay, d, factor, left);
  }

  lemma TruncateTwo(p: real, q: real, n: int)
    requires 0.0 <= p && 0.0 <= q && p + q <= n as real
    ensures 0 <= Truncate(p) + Truncate(q) <= n
  {
  }

  lemma TruncateOne(p: real, n: int)
    requires 0.0 <= p <= n as real
    ensures 0 <= Truncate(p) <= n
  {
  }

  lemma FullWithin(delay: int, d: real, random: real, factor: real)
    requires delay >= 0 && d == delay as real && Unit(random) && 0.0 <= factor <= 1.0
    ensures 0 <= Scaled(delay, 1.0 - factor) + Portion(d, random, factor) <= delay
  {
    var q, left := Parts(delay, d, random, factor);
    TruncateTwo(left, q, delay);
  }

  lemma EqualWithin(half: int, d: real, random: real, factor: real)
    requires half >= 0 && d == half as real && Unit(random) && 0.0 <= factor <= 1.0
    ensures 0 <= Portion(d, random, factor) <= half
  {
    var q, left := Parts(half, d, random, factor);
    TruncateOne(q, half);
  }

  /** Without decorrelation jitter only shortens a delay, and never below zero. */
  lemma JitterWithin(previous: int, delay: int, kind: JitterType, factor: real, random: real)
    requires delay >= 0 && factor <= 1.0 && Unit(random) && !kind.Decorrelated?
    ensures 0 <= Jittered(previous, delay, kind, factor, random) <= delay
  {
    if delay > 0 && factor > 0.0 {
      match kind
      case NoJitter =>
      case Full => FullWithin(delay, delay as real, random, factor);
      case Equal => EqualWithin(delay / 2, (delay / 2) as real, random, factor);
    }
  }

  lemma Threefold(delay: int)
    ensures Scaled(delay, 3.0) == 3 * delay
  {
    assert delay as real * 3.0 == (3 * delay) as real;
  }

  lemma CeilingIs(previous: int, delay: int)
    ensures Ceiling(previous, delay) == if 0 < previous < 3 * delay then previous else 3 * delay
  {
    Threefold(delay);
  }

  lemma StrictShare(d: real, random: real)
    requires d > 0.0 && Unit(random)
    ensures 0.0 <= d * random < d
  {
    ProductMonotone(d, 0.0, random);
    assert d * (1.0 - random) > 0.0;
  }

  lemma ScaledBelow(top: int, random: real)
    requires top > 0 && Unit(random)
    ensures 0 <= Scaled(top, random) < top
  {
    StrictShare(top as real, random);
    TruncateBelow(top as real * random, top);
  }

  lemma TruncateBelow(x: real, n: int)
    requires 0.0 <= x < n as real
    ensures 0 <= Truncate(x) < n
  {
  }

  /** Decorrelated: below three times the delay, and below the last one if it was positive. */
  lemma DecorrelatedWithin(previous: int, delay: int, factor: real, random: real)
    requires delay > 0 && factor > 0.0 && Unit(random)
    ensures var r := Jittered(previous, delay, Decorrelated, factor, random);
      0 <= r < 3 * delay && (previous > 0 ==> r < previous)
  {
    CeilingIs(previous, delay);
    ScaledBelow(Ceiling(previous, delay), random);
  }

  ghost predicate NeverExceeds(previous: int, delay: int, factor: real) {
    forall random :: Unit(random) ==> Jittered(previous, delay, Decorrelated, factor, random) <= delay
  }

  lemma Quotient(x: real, y: real)
    requires 0.0 <= x < y
    ensures 0.0 <= x / y && y * (x / y) == x
    ensures x / y < 1.0
  {
    if x / y >= 1.0 {
      ProductMonotone(y, 1.0, x / y);
    }
  }

  lemma TruncateWhole(n: int)
    requires n >= 0
    ensures Truncate(n as real) == n
  {
  }

  /** A share of `top` that comes out as `n`. */
  lemma ShareOf(top: int, n: int) returns (random: real)
    requires 0 <= n < top
    ensures Unit(random) && Scaled(top, random) == n
  {
    random := n as real / top as real;
    Quotient(n as real, top as real);
    TruncateWhole(n);
  }

  lemma ScaledIsPortion(delay: int, d: real, random: real)
    requires d == delay as real
    ensures Scaled(delay, random) == Portion(d, random, 1.0)
  {
    assert d * random * 1.0 == d * random;
  }

  lemma NothingScaled(delay: int, rest: real)
    requires rest == 0.0
    ensures Scaled(delay, rest) == 0
  {
  }

  /** With a jitter factor of one, full jitter takes every value from zero up to the delay,
      and equal jitter every value from half the delay up to twice that half. */
  lemma JitterSpreads(previous: int, delay: int, n: int) returns (random: real)
    requires delay > 0 && 0 <= n < delay
    ensures Unit(random) && Jittered(previous, delay, Full, 1.0, random) == n
    ensures n < delay / 2 ==> exists r :: Unit(r) && Jittered(previous, delay, Equal, 1.0, r) == delay / 2 + n
  {
    random := ShareOf(delay, n);
    ScaledIsPortion(delay, delay as real, random);
    NothingScaled(delay, 1.0 - 1.0);
    if n < delay / 2 {
      var r := ShareOf(delay / 2, n);
      ScaledIsPortion(delay / 2, (delay / 2) as real, r);
      assert Unit(r) && Jittered(previous, delay, Equal, 1.0, r) == delay / 2 + n;
    }
  }

  /** However small the random number: equal jitter leaves at least half of the delay, and
      full jitter what the factor does not touch. */
  lemma JitterLeaves(previous: int, delay: int, factor: real, random: real)
    requires delay > 0 && 0.0 < factor <= 1.0 && Unit(random)
    ensures Jittered(previous, delay, Equal, factor, random) >= delay / 2
    ensures Jittered(previous, delay, Full, factor, random) >= Scaled(delay, 1.0 - factor)
    ensures Jittered(previous, delay, NoJitter, factor, random) == delay
  {
    PortionIsPositive(delay as real, random, factor);
    PortionIsPositive((delay / 2) as real, random, factor);
  }

  lemma PortionIsPositive(d: real, random: real, factor: real)
    requires d >= 0.0 && Unit(random) && 0.0 <= factor <= 1.0
    ensures Portion(d, random, factor) >= 0
  {
    var q, taken := PortionRoom(d, random, factor);
    PortionIs(d, random, factor, q);
    TruncateBetween(q, q);
  }

  /** Exactly when decorrelated jitter never lengthens the computed delay: the last delay
      is positive and at most one more. */
  lemma DecorrelatedNeverExceedsIff(previous: int, delay: int, factor: real)
    requires delay > 0 && factor > 0.0
    ensures NeverExceeds(previous, delay, factor) <==> 0 < previous <= delay + 1
  {
    CeilingIs(previous, delay);
    var top := Ceiling(previous, delay);
    if 0 < previous <= delay + 1 {
      forall random | Unit(random) ensures Jittered(previous, delay, Decorrelated, factor, random) <= delay {
        ScaledBelow(top, random);
      }
    } else {
      var random := ShareOf(top, delay + 1);
      assert Jittered(previous, delay, Decorrelated, factor, random) == delay + 1;
    }
  }

  // ------------------------------------------------------------------ the next delay

  function CappedBackoff(cfg: Config, attempt: int): int {
    Min(Backoff(attempt, cfg.initialDelay, cfg.strategy, cfg.multiplier), cfg.maxDelay)
  }

  predicate UsesRetryAfter(cfg: Config, retryAfter: int) {
    cfg.respectRetryAfter && 0 < retryAfter <= cfg.maxRetryAfter
  }

  function Delay(cfg: Config, previous: int, attempt: int, retryAfter: int, random: real): int {
    if UsesRetryAfter(cfg, retryAfter) then retryAfter
    else if cfg.jitterEnabled then Jittered(previous, CappedBackoff(cfg, attempt), cfg.jitterType, cfg.jitterFactor, random)
    else CappedBackoff(cfg, attempt)
  }

  function PreviousAfter(cfg: Config, previous: int, attempt: int, retryAfter: int, random: real): int {
    if UsesRetryAfter(cfg, retryAfter) || !cfg.jitterEnabled then previous
    else Remembered(previous, CappedBackoff(cfg, attempt), cfg.jitterType, cfg.jitterFactor, random)
  }

  predicate Sensible(cfg: Config) {
    cfg.initialDelay >= 0 && cfg.maxDelay >= 0 && cfg.multiplier >= 0.0 && cfg.jitterFactor <= 1.0
  }

  predicate DecorrelatedOn(cfg: Config) {
    cfg.jitterEnabled && cfg.jitterType.Decorrelated? && cfg.jitterFactor > 0.0
  }

  function Bound(cfg: Config): int {
    Max(if DecorrelatedOn(cfg) then 3 * cfg.maxDelay else cfg.maxDelay, cfg.maxRetryAfter)
  }

  /** A server's hint decides the delay exactly when hints are respected and it is positive and
      not too long; any other hint makes no difference. */
  lemma HintMeans(cfg: Config, previous: int, attempt: int, retryAfter: int, random: real)
    ensures var d := Delay(cfg, previous, attempt, retryAfter, random);
      if cfg.respectRetryAfter && retryAfter > 0 && retryAfter <= cfg.maxRetryAfter then d == retryAfter
      else d == Delay(cfg, previous, attempt, 0, random)
    ensures !cfg.jitterEnabled ==>
      Delay(cfg, previous, attempt, 0, random)
        == Min(Backoff(attempt, cfg.initialDelay, cfg.strategy, cfg.multiplier), cfg.maxDelay)
  {
  }

  lemma DelayWithin(cfg: Config, previous: int, attempt: int, retryAfter: int, random: real)
    requires Sensible(cfg) && Unit(random)
    ensures 0 <= Delay(cfg, previous, attempt, retryAfter, random) <= Bound(cfg)
  {
    BackoffIsPositive(attempt, cfg.initialDelay, cfg.strategy, cfg.multiplier);
    var base := CappedBackoff(cfg, attempt);
    if !UsesRetryAfter(cfg, retryAfter) && cfg.jitterEnabled {
      if !cfg.jitterType.Decorrelated? {
        JitterWithin(previous, base, cfg.jitterType, cfg.jitterFactor, random);
      } else if base > 0 && cfg.jitterFactor > 0.0 {
        DecorrelatedWithin(previous, base, cfg.jitterFactor, random);
      }
    }
  }

  // ---------------------------------------------------------------- the attempt loop

  /** An error comes with the verdict on retrying it and its retry-after hint. */
  datatype Outcome = Ok | Err(retry: bool, retryAfter: int)

  /** What the world does, attempt by attempt. */
  datatype Oracle = Oracle(outcome: nat -> Outcome, random: nat -> real, pastDeadline: nat -> bool, cancelled: nat -> bool)

  datatype End = NoError | LastError | ContextError

  /** `waits` are the delays computed, whether or not they were waited out. */
  datatype Trace = Trace(attempts: nat, waits: seq<int>, end: End, previous: int)

  function Tries(cfg: Config, o: Oracle, previous: int, n: nat): Trace
    requires 1 <= n <= cfg.maxRetries + 1
    decreases cfg.maxRetries + 1 - n
  {
    match o.outcome(n)
    case Ok => Trace(n, [], NoError, previous)
    case Err(retry, after) =>
      if !retry || n > cfg.maxRetries then Trace(n, [], LastError, previous)
      else
        var d, p := Delay(cfg, previous, n, after, o.random(n)), PreviousAfter(cfg, previous, n, after, o.random(n));
        if d > 0 && o.pastDeadline(n) then Trace(n, [d], LastError, p)
        else if d > 0 && o.cancelled(n) then Trace(n, [d], ContextError, p)
        else
          var rest := Tries(cfg, o, p, n + 1);
          rest.(waits := [d] + rest.waits)
  }

  function Executed(cfg: Config, o: Oracle, previous: int): Trace {
    if cfg.maxRetries < 0 then Trace(0, [], NoError, previous) else Tries(cfg, o, previous, 1)
  }

  /** The attempts from `n` on, after the `waits` so far, make up the `whole` call. */
  ghost predicate OnCourse(cfg: Config, o: Oracle, previous: int, n: nat, waits: seq<int>, whole: Trace)
    requires 1 <= n <= cfg.maxRetries + 1
  {
    var rest := Tries(cfg, o, previous, n);
    whole == rest.(waits := waits + rest.waits)
  }

  lemma OnCourseNext(cfg: Config, o: Oracle, previous: int, n: nat, waits: seq<int>, whole: Trace)
    requires 1 <= n <= cfg.maxRetries + 1 && OnCourse(cfg, o, previous, n, waits, whole)
    ensures var out := o.outcome(n);
      if out.Ok? then whole == Trace(n, waits, NoError, previous)
      else if !out.retry || n > cfg.maxRetries then whole == Trace(n, waits, LastError, previous)
      else
        var d, p := Delay(cfg, previous, n, out.retryAfter, o.random(n)), PreviousAfter(cfg, previous, n, out.retryAfter, o.random(n));
        if d > 0 && o.pastDeadline(n) then whole == Trace(n, waits + [d], LastError, p)
        else if d > 0 && o.cancelled(n) then whole == Trace(n, waits + [d], ContextError, p)
        else OnCourse(cfg, o, p, n + 1, waits + [d], whole)
  {
    var out := o.outcome(n);
    if out.Err? && out.retry && n <= cfg.maxRetries {
      var d, p := Delay(cfg, previous, n, out.retryAfter, o.random(n)), PreviousAfter(cfg, previous, n, out.retryAfter, o.random(n));
      var rest := Tries(cfg, o, p, n + 1);
      assert waits + ([d] + rest.waits) == waits + [d] + rest.waits;
    }
  }

  class Retryer {
    const config: Config
    const backoffCalc: BackoffCalculator
    const jitterCalc: JitterCalculator
    var totalAttempts: nat

    ghost predicate Valid()
      reads this, backoffCalc
    {
      backoffCalc.Valid()
    }

    constructor (config: Config)
      ensures Valid() && this.config == config && fresh(backoffCalc) && fresh(jitterCalc)
      ensures jitterCalc.previousDelay == 0 && totalAttempts == 0
    {
      this.config := config;
      backoffCalc := new BackoffCalculator();
      jitterCalc := new JitterCalculator();
      totalAttempts := 0;
    }

    method CalculateDelay(attempt: int, retryAfter: int, random: real) returns (r: int)
      requires Valid()
      modifies backoffCalc, jitterCalc
      ensures Valid() && r == Delay(config, old(jitterCalc.previousDelay), attempt, retryAfter, random)
      ensures jitterCalc.previousDelay == PreviousAfter(config, old(jitterCalc.previousDelay), attempt, retryAfter, random)
    {
      if config.respectRetryAfter && retryAfter > 0 {
        if retryAfter <= config.maxRetryAfter {
          return retryAfter;
        }
      }
      r := backoffCalc.Calculate(attempt, config.initialDelay, config.strategy, config.multiplier);
      if r > config.maxDelay {
        r := config.maxDelay;
      }
      if config.jitterEnabled {
        r := jitterCalc.Calculate(r, config.jitterType, config.jitterFactor, random);
      }
    }

    method Execute(o: Oracle) returns (end: End, attempts: nat, waits: seq<int>)
      requires Valid()
      modifies this, backoffCalc, jitterCalc
      ensures Valid() && totalAttempts == old(totalAttempts) + attempts
      ensures Trace(attempts, waits, end, jitterCalc.previousDelay) == Executed(config, o, old(jitterCalc.previousDelay))
    {
      end, attempts, waits := NoError, 0, [];
      ghost var whole := Executed(config, o, jitterCalc.previousDelay);
      var attempt := 1;
      while attempt <= config.maxRetries + 1
        invariant 1 <= attempt && attempts == attempt - 1 && Valid()
        invariant totalAttempts == old(totalAttempts) + attempts
        invariant attempt > config.maxRetries + 1 ==>
          whole == Trace(0, [], NoError, jitterCalc.previousDelay) && attempts == 0 && waits == [] && end == NoError
        invariant attempt <= config.maxRetries + 1 ==> OnCourse(config, o, jitterCalc.previousDelay, attempt, waits, whole)
        decreases config.maxRetries + 2 - attempt
      {
        OnCourseNext(config, o, jitterCalc.previousDelay, attempt, waits, whole);
        var outcome := o.outcome(attempt);
        attempts, totalAttempts := attempt, totalAttempts + 1;
        if outcome.Ok? {
          return NoError, attempts, waits;
        }
        end := LastError;
        if !outcome.retry || attempt > config.maxRetries {
          break;
        }
        var delay := CalculateDelay(attempt, outcome.retryAfter, o.random(attempt));
        waits := waits + [delay];
        if delay > 0 {
          if o.pastDeadline(attempt) {
            break;
          }
          if o.cancelled(attempt) {
            return ContextError, attempts, waits;
          }
        }
        attempt := attempt + 1;
      }
    }
  }

  // --------------------------------------------------------- what a whole call does

  function RetryAfter(out: Outcome): int {
    if out.Err? then out.retryAfter else 0
  }

  /** What the jitter calculator remembers when attempt `n` ends, if the loop gets there. */
  function PreviousAt(cfg: Config, o: Oracle, previous: int, n: nat): int {
    if n <= 1 then previous
    else PreviousAfter(cfg, PreviousAt(cfg, o, previous, n - 1), n - 1, RetryAfter(o.outcome(n - 1)), o.random(n - 1))
  }

  /** The wait after attempt `n`, if the loop gets there. */
  function WaitAt(cfg: Config, o: Oracle, previous: int, n: nat): int {
    Delay(cfg, PreviousAt(cfg, o, previous, n), n, RetryAfter(o.outcome(n)), o.random(n))
  }

  /** The error of attempt `n` may be retried, and its wait is none or can be waited out. */
  ghost predicate GoesOn(cfg: Config, o: Oracle, previous: int, n: nat) {
    && o.outcome(n).Err? && o.outcome(n).retry
    && (WaitAt(cfg, o, previous, n) <= 0 || (!o.pastDeadline(n) && !o.cancelled(n)))
  }

  /** The wait after attempt `n`, though it would end in time, is cut short by the caller. */
  ghost predicate CutShort(cfg: Config, o: Oracle, previous: int, n: nat) {
    && o.outcome(n).Err? && o.outcome(n).retry && n <= cfg.maxRetries
    && WaitAt(cfg, o, previous, n) > 0 && !o.pastDeadline(n) && o.cancelled(n)
  }

  /** Attempt `k` succeeds, and nothing stops the loop before it. */
  ghost predicate FirstSuccess(cfg: Config, o: Oracle, previous: int, k: nat) {
    && 1 <= k <= cfg.maxRetries + 1 && o.outcome(k).Ok?
    && forall n: nat :: 1 <= n < k ==> GoesOn(cfg, o, previous, n)
  }

  /** The waits of attempts `n`, `n + 1`, ... */
  ghost predicate WaitsFrom(cfg: Config, o: Oracle, previous: int, n: nat, waits: seq<int>) {
    forall i :: 0 <= i < |waits| ==> waits[i] == WaitAt(cfg, o, previous, n + i)
  }

  lemma WaitsOneMore(cfg: Config, o: Oracle, previous: int, n: nat, waits: seq<int>)
    requires WaitsFrom(cfg, o, previous, n + 1, waits)
    ensures WaitsFrom(cfg, o, previous, n, [WaitAt(cfg, o, previous, n)] + waits)
  {
    var all := [WaitAt(cfg, o, previous, n)] + waits;
    forall i | 0 <= i < |all| ensures all[i] == WaitAt(cfg, o, previous, n + i) {
      assert i > 0 ==> all[i] == waits[i - 1] == WaitAt(cfg, o, previous, n + 1 + (i - 1));
    }
  }

  lemma {:induction false} TriesExactly(cfg: Config, o: Oracle, previous: int, n: nat)
    requires 1 <= n <= cfg.maxRetries + 1
    ensures var t := Tries(cfg, o, PreviousAt(cfg, o, previous, n), n);
      && n <= t.attempts <= cfg.maxRetries + 1 && t.attempts - n <= |t.waits| <= t.attempts - n + 1
      && |t.waits| <= cfg.maxRetries + 1 - n
      && WaitsFrom(cfg, o, previous, n, t.waits)
      && (t.end.NoError? <==> o.outcome(t.attempts).Ok?)
      && (t.end.ContextError? <==> CutShort(cfg, o, previous, t.attempts))
      && (forall m: nat :: n <= m < t.attempts ==> GoesOn(cfg, o, previous, m))
      && (t.attempts == cfg.maxRetries + 1 || !GoesOn(cfg, o, previous, t.attempts))
    decreases cfg.maxRetries + 1 - n
  {
    var out := o.outcome(n);
    if out.Err? && out.retry && n <= cfg.maxRetries {
      WaitsOneMore(cfg, o, previous, n, []);
      if GoesOn(cfg, o, previous, n) {
        TriesExactly(cfg, o, previous, n + 1);
        WaitsOneMore(cfg, o, previous, n, Tries(cfg, o, PreviousAt(cfg, o, previous, n + 1), n + 1).waits);
      }
    }
  }

  /** At most `MaxRetries + 1` attempts, and after the n-th the n-th wait; no error is
      returned exactly when some attempt succeeds and all before it went on, or when a
      negative `MaxRetries` means that nothing is attempted at all. */
  lemma ExecuteExactly(cfg: Config, o: Oracle, previous: int)
    ensures var t := Executed(cfg, o, previous);
      && t.attempts <= Max(0, cfg.maxRetries + 1) && |t.waits| <= Max(0, cfg.maxRetries)
      && (t.attempts == 0 <==> cfg.maxRetries < 0)
      && WaitsFrom(cfg, o, previous, 1, t.waits)
      && (t.end.NoError? <==> cfg.maxRetries < 0 || exists k: nat :: FirstSuccess(cfg, o, previous, k))
      && (forall k: nat :: FirstSuccess(cfg, o, previous, k) ==> t.attempts == k)
      && (t.end.ContextError? <==> t.attempts > 0 && CutShort(cfg, o, previous, t.attempts))
  {
    if cfg.maxRetries >= 0 {
      TriesExactly(cfg, o, previous, 1);
      var t := Tries(cfg, o, previous, 1);
      assert t.end.NoError? ==> FirstSuccess(cfg, o, previous, t.attempts);
      forall k: nat | FirstSuccess(cfg, o, previous, k) ensures t.attempts == k {
        assert t.attempts < k ==> GoesOn(cfg, o, previous, t.attempts);
        assert k < t.attempts ==> GoesOn(cfg, o, previous, k);
      }
    }
  }

  function Sum(waits: seq<int>): int
    decreases |waits|
  {
    if waits == [] then 0 else waits[0] + Sum(waits[1..])
  }

  ghost predicate Randoms(o: Oracle) {
    forall n: nat :: Unit(o.random(n))
  }

  ghost predicate AllWithin(waits: seq<int>, bound: int) {
    forall i :: 0 <= i < |waits| ==> 0 <= waits[i] <= bound
  }

  lemma AllWithinOneMore(d: int, waits: seq<int>, bound: int)
    requires 0 <= d <= bound && AllWithin(waits, bound)
    ensures AllWithin([d] + waits, bound)
  {
  }

  lemma {:induction false} WaitsWithin(cfg: Config, o: Oracle, previous: int, n: nat)
    requires 1 <= n <= cfg.maxRetries + 1 && Sensible(cfg) && Randoms(o)
    ensures AllWithin(Tries(cfg, o, previous, n).waits, Bound(cfg))
    decreases cfg.maxRetries + 1 - n
  {
    var out := o.outcome(n);
    if out.Err? && out.retry && n <= cfg.maxRetries {
      var d, p := Delay(cfg, previous, n, out.retryAfter, o.random(n)), PreviousAfter(cfg, previous, n, out.retryAfter, o.random(n));
      DelayWithin(cfg, previous, n, out.retryAfter, o.random(n));
      WaitsWithin(cfg, o, p, n + 1);
      AllWithinOneMore(d, Tries(cfg, o, p, n + 1).waits, Bound(cfg));
      AllWithinOneMore(d, [], Bound(cfg));
    }
  }

  lemma {:induction false} SumWithin(waits: seq<int>, bound: int)
    requires AllWithin(waits, bound)
    ensures 0 <= Sum(waits) <= |waits| * bound
    decreases |waits|
  {
    if waits != [] {
      SumWithin(waits[1..], bound);
      assert |waits| * bound == (|waits| - 1) * bound + bound;
    }
  }

  lemma TotalWithin(waits: seq<int>, n: nat, bound: int)
    requires AllWithin(waits, bound) && |waits| <= n && bound >= 0
    ensures 0 <= Sum(waits) <= n * bound
  {
    SumWithin(waits, bound);
    IntProductMonotone(bound, |waits|, n);
  }

  /** Every wait of a call lies between zero and `MaxDelay` (or the longest retry-after
      that is accepted, or three times `MaxDelay` under decorrelated jitter), and all
      waits together are at most `MaxRetries` such waits. */
  lemma WaitsAreBounded(cfg: Config, o: Oracle, previous: int)
    requires Sensible(cfg) && Randoms(o)
    ensures var t := Executed(cfg, o, previous);
      && AllWithin(t.waits, Bound(cfg))
      && 0 <= Sum(t.waits) <= Max(0, cfg.maxRetries) * Max(0, Bound(cfg))
  {
    if cfg.maxRetries >= 0 {
      WaitsWithin(cfg, o, previous, 1);
      ExecuteExactly(cfg, o, previous);
      var t := Executed(cfg, o, previous);
      assert AllWithin(t.waits, Max(0, Bound(cfg)));
      TotalWithin(t.waits, cfg.maxRetries, Max(0, Bound(cfg)));
    }
  }

  ghost predicate ShrinksUntilZero(waits: seq<int>) {
    forall i :: 0 <= i < |waits| - 1 && waits[i] > 0 ==> waits[i + 1] < waits[i]
  }

  /** The waits after attempts `n`, `n + 1`, ... that are not a server's hint. */
  function Unhinted(cfg: Config, o: Oracle, waits: seq<int>, n: nat): seq<int>
    decreases |waits|
  {
    if waits == [] then []
    else (if UsesRetryAfter(cfg, RetryAfter(o.outcome(n))) then [] else [waits[0]]) + Unhinted(cfg, o, waits[1..], n + 1)
  }

  /** Shrinking, and starting below a positive delay before it. */
  ghost predicate ShrinksFrom(previous: int, waits: seq<int>) {
    ShrinksUntilZero(waits) && (previous > 0 && waits != [] ==> waits[0] < previous)
  }

  /** `remembered` is the last of the waits, or what it was without any. */
  ghost predicate Carries(previous: int, waits: seq<int>, remembered: int) {
    if waits == [] then remembered == previous else waits[|waits| - 1] > 0 ==> remembered == waits[|waits| - 1]
  }

  ghost predicate Fits(previous: int, waits: seq<int>, remembered: int) {
    ShrinksFrom(previous, waits) && Carries(previous, waits, remembered)
  }

  lemma FitsOneMore(previous: int, d: int, p: int, waits: seq<int>, remembered: int)
    requires Fits(p, waits, remembered) && (d > 0 ==> p == d) && (previous > 0 ==> d < previous)
    ensures Fits(previous, [d] + waits, remembered)
  {
    var all := [d] + waits;
    assert waits == [] ==> all == [d];
    assert waits != [] ==> all[|all| - 1] == waits[|waits| - 1];
    forall i | 0 <= i < |all| - 1 && all[i] > 0 ensures all[i + 1] < all[i] {
      assert all[i + 1] == waits[i];
      if i > 0 {
        assert all[i] == waits[i - 1] && waits[i - 1 + 1] < waits[i - 1];
      }
    }
  }

  lemma FitsJoined(previous: int, waits: seq<int>, p: int, more: seq<int>, remembered: int)
    requires Fits(previous, waits, p) && Fits(p, more, remembered)
    ensures Fits(previous, waits + more, remembered)
  {
    var all := waits + more;
    if more == [] {
      assert all == waits;
    } else if waits == [] {
      assert all == more;
    } else {
      forall i | 0 <= i < |all| - 1 && all[i] > 0 ensures all[i + 1] < all[i] {
        if i >= |waits| {
          assert all[i] == more[i - |waits|] && all[i + 1] == more[i - |waits| + 1];
        }
      }
    }
  }

  lemma NextDelayShrinks(cfg: Config, previous: int, attempt: int, retryAfter: int, random: real)
    requires Sensible(cfg) && Unit(random) && DecorrelatedOn(cfg) && !UsesRetryAfter(cfg, retryAfter)
    ensures var d := Delay(cfg, previous, attempt, retryAfter, random);
      && (previous > 0 ==> d < previous)
      && (d > 0 ==> PreviousAfter(cfg, previous, attempt, retryAfter, random) == d)
  {
    var base := CappedBackoff(cfg, attempt);
    if base > 0 {
      DecorrelatedWithin(previous, base, cfg.jitterFactor, random);
    }
  }

  lemma UnhintedOneMore(cfg: Config, o: Oracle, d: int, waits: seq<int>, n: nat)
    ensures Unhinted(cfg, o, [d] + waits, n)
         == if UsesRetryAfter(cfg, RetryAfter(o.outcome(n))) then Unhinted(cfg, o, waits, n + 1)
            else [d] + Unhinted(cfg, o, waits, n + 1)
  {
    assert ([d] + waits)[1..] == waits;
    assert [] + Unhinted(cfg, o, waits, n + 1) == Unhinted(cfg, o, waits, n + 1);
  }

  /** One computed wait before the others. */
  lemma DecorrelatedOneMore(cfg: Config, o: Oracle, previous: int, n: nat, rest: seq<int>, remembered: int)
    requires Sensible(cfg) && Randoms(o) && DecorrelatedOn(cfg) && o.outcome(n).Err?
    requires Fits(PreviousAfter(cfg, previous, n, RetryAfter(o.outcome(n)), o.random(n)), Unhinted(cfg, o, rest, n + 1), remembered)
    ensures var d := Delay(cfg, previous, n, RetryAfter(o.outcome(n)), o.random(n));
      Fits(previous, Unhinted(cfg, o, [d] + rest, n), remembered)
  {
    var after := RetryAfter(o.outcome(n));
    var d, p := Delay(cfg, previous, n, after, o.random(n)), PreviousAfter(cfg, previous, n, after, o.random(n));
    UnhintedOneMore(cfg, o, d, rest, n);
    if !UsesRetryAfter(cfg, after) {
      NextDelayShrinks(cfg, previous, n, after, o.random(n));
      FitsOneMore(previous, d, p, Unhinted(cfg, o, rest, n + 1), remembered);
    }
  }

  lemma {:induction false} DecorrelatedTries(cfg: Config, o: Oracle, previous: int, n: nat)
    requires 1 <= n <= cfg.maxRetries + 1 && Sensible(cfg) && Randoms(o) && DecorrelatedOn(cfg)
    ensures var t := Tries(cfg, o, previous, n); Fits(previous, Unhinted(cfg, o, t.waits, n), t.previous)
    decreases cfg.maxRetries + 1 - n
  {
    var out := o.outcome(n);
    if out.Err? && out.retry && n <= cfg.maxRetries {
      var d, p := Delay(cfg, previous, n, out.retryAfter, o.random(n)), PreviousAfter(cfg, previous, n, out.retryAfter, o.random(n));
      if d > 0 && (o.pastDeadline(n) || o.cancelled(n)) {
        DecorrelatedOneMore(cfg, o, previous, n, [], p);
        assert [d] + [] == [d];
      } else {
        DecorrelatedTries(cfg, o, p, n + 1);
        var rest := Tries(cfg, o, p, n + 1);
        DecorrelatedOneMore(cfg, o, previous, n, rest.waits, rest.previous);
      }
    }
  }

  /** One call after another of the same retryer, `previous` being what it remembers. */
  function UnhintedWaits(cfg: Config, calls: seq<Oracle>, previous: int): seq<int>
    decreases |calls|
  {
    if calls == [] then []
    else
      var t := Executed(cfg, calls[0], previous);
      Unhinted(cfg, calls[0], t.waits, 1) + UnhintedWaits(cfg, calls[1..], t.previous)
  }

  function PreviousAfterCalls(cfg: Config, calls: seq<Oracle>, previous: int): int
    decreases |calls|
  {
    if calls == [] then previous else PreviousAfterCalls(cfg, calls[1..], Executed(cfg, calls[0], previous).previous)
  }

  /** Under decorrelated jitter the positive waits that are not a server's hint only
      shrink, over all calls of one retryer: each is shorter than the last such one, in
      this call or an earlier one, until one is zero.  Hints in between make no
      difference. */
  lemma {:induction false} DecorrelatedShrinks(cfg: Config, calls: seq<Oracle>, previous: int)
    requires Sensible(cfg) && DecorrelatedOn(cfg) && forall i :: 0 <= i < |calls| ==> Randoms(calls[i])
    ensures var waits := UnhintedWaits(cfg, calls, previous);
      ShrinksFrom(previous, waits) && Carries(previous, waits, PreviousAfterCalls(cfg, calls, previous))
    decreases |calls|
  {
    if calls != [] {
      var t := Executed(cfg, calls[0], previous);
      if cfg.maxRetries >= 0 {
        DecorrelatedTries(cfg, calls[0], previous, 1);
      }
      DecorrelatedShrinks(cfg, calls[1..], t.previous);
      FitsJoined(previous, Unhinted(cfg, calls[0], t.waits, 1), t.previous,
                 UnhintedWaits(cfg, calls[1..], t.previous), PreviousAfterCalls(cfg, calls, previous));
    }
  }
}
