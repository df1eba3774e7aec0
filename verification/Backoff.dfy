/**
  The retry delay of the outbox worker: doubling in 64-bit nanoseconds up to a
  cap, then jitter.  Durations wrap around as Go's int64 does; the jitter is
  computed over the reals.
*/
module Backoff {
  const MAX64: int := 0x7fff_ffff_ffff_ffff
  const MODULUS: int := 0x1_0000_0000_0000_0000
  const MILLISECOND: int := 1_000_000
  const SECOND: int := 1_000_000_000
  const MINUTE: int := 60 * SECOND

  predicate InRange(d: int) {
    -MAX64 - 1 <= d <= MAX64
  }

  /** Two's complement wrap-around. */
  function Wrap(d: int): (r: int)
    ensures InRange(r)
    ensures InRange(d) ==> r == d
  {
    (d + MAX64 + 1) % MODULUS - MAX64 - 1
  }

  datatype Config = Config(initial: int, max: int, ratio: real) {
    function Initial(): int {
      if initial <= 0 then 30 * SECOND else initial
    }

    function Max(): int {
      if max <= 0 then 30 * MINUTE else max
    }
  }

  /** Doubling `steps` times, stopping at the first value above the cap. */
  function Doubled(d: int, steps: nat, max: int): int
    decreases steps
  {
    if steps == 0 then d
    else if Wrap(d * 2) > max then max
    else Doubled(Wrap(d * 2), steps - 1, max)
  }

  function Steps(retryCount: int): nat {
    if retryCount < 1 then 0 else retryCount - 1
  }

  /** The delay before jitter. */
  method Delay(retryCount: int, cfg: Config) returns (delay: int)
    ensures delay == Doubled(cfg.Initial(), Steps(retryCount), cfg.Max())
  {
    var initialBackoff := cfg.initial;
    if initialBackoff <= 0 {
      initialBackoff := 30 * SECOND;
    }
    var maxBackoff := cfg.max;
    if maxBackoff <= 0 {
      maxBackoff := 30 * MINUTE;
    }
    delay := initialBackoff;
    var i := 1;
    while i < retryCount
      invariant 1 <= i && (retryCount >= 1 ==> i <= retryCount)
      invariant Doubled(delay, if i < retryCount then retryCount - i else 0, maxBackoff)
                == Doubled(cfg.Initial(), Steps(retryCount), cfg.Max())
    {
      delay := Wrap(delay * 2);
      if delay > maxBackoff {
        delay := maxBackoff;
        break;
      }
      i := i + 1;
    }
  }

  function Min(a: int, b: int): int {
    if a <= b then a else b
  }

  function Pow2(n: nat): nat {
    if n == 0 then 1 else 2 * Pow2(n - 1)
  }

  lemma {:induction false} Pow2AtLeast(n: nat, m: nat)
    requires n <= m
    ensures 1 <= Pow2(n) <= Pow2(m)
    decreases m
  {
    if n < m {
      Pow2AtLeast(n, m - 1);
    } else if n > 0 {
      Pow2AtLeast(n - 1, n - 1);
    }
  }

  /** The uncapped delay after `k` doublings. */
  function Nth(d: int, k: nat): int {
    d * Pow2(k)
  }

  lemma Shift(d: int, k: nat)
    ensures Nth(d, k + 1) == Nth(d * 2, k)
  {
  }

  lemma NthGrows(d: int, n: nat, m: nat)
    requires d > 0 && n <= m
    ensures d <= Nth(d, n) <= Nth(d, m)
  {
    Pow2AtLeast(0, n);
    Pow2AtLeast(n, m);
    Scale(d, 1, Pow2(n));
    Scale(d, Pow2(n), Pow2(m));
  }

  lemma Scale(d: int, a: int, b: int)
    requires d > 0 && a <= b
    ensures d * a <= d * b
  {
  }

  /** No doubling that the loop performs leaves the 64-bit range. */
  predicate NeverOverflows(d: int, steps: nat, max: int)
    decreases steps
  {
    steps == 0 || (InRange(d * 2) && (d * 2 > max || NeverOverflows(d * 2, steps - 1, max)))
  }

  /** No uncapped delay among the first `steps` is under the cap and above half the range. */
  ghost predicate Roomy(d: int, steps: nat, max: int) {
    forall k: nat :: k < steps && Nth(d, k) <= max ==> Nth(d, k) * 2 <= MAX64
  }

  lemma RoomyStep(d: int, steps: nat, max: int)
    requires 0 < d && d * 2 <= max && steps > 0
    ensures Roomy(d, steps, max) <==> d * 2 <= MAX64 && Roomy(d * 2, steps - 1, max)
  {
    assert Nth(d, 0) == d;
    if Roomy(d, steps, max) {
      forall k: nat | k < steps - 1 && Nth(d * 2, k) <= max
        ensures Nth(d * 2, k) * 2 <= MAX64
      {
        Shift(d, k);
      }
    }
    if d * 2 <= MAX64 && Roomy(d * 2, steps - 1, max) {
      forall k: nat | k < steps && Nth(d, k) <= max
        ensures Nth(d, k) * 2 <= MAX64
      {
        if k > 0 {
          Shift(d, k - 1);
        }
      }
    }
  }

  /**
    The loop stays in range exactly when every delay under the cap leaves room
    to double; a first delay above the cap is doubled once all the same.
  */
  lemma {:induction false} OverflowExactly(d: int, steps: nat, max: int)
    requires 0 < d
    ensures NeverOverflows(d, steps, max) <==> if d <= max then Roomy(d, steps, max) else steps == 0 || d * 2 <= MAX64
    decreases steps
  {
    if steps > 0 && d <= max {
      if d * 2 <= max {
        RoomyStep(d, steps, max);
        OverflowExactly(d * 2, steps - 1, max);
      } else {
        assert Nth(d, 0) == d;
        forall k: nat | 0 < k
          ensures Nth(d, k) > max
        {
          NthGrows(d, 1, k);
        }
      }
    }
  }

  /**
    With the first delay and the cap both within half the range, the delay is
    the capped exponential, except that the first retry ignores a smaller cap.
  */
  lemma {:induction false} DelayIsCappedExponential(d: int, steps: nat, max: int)
    requires 0 < d <= MAX64 / 2 && 0 < max <= MAX64 / 2
    ensures Doubled(d, steps, max) == Min(d * Pow2(steps), max) <==> d <= max || steps > 0
    ensures 0 < Doubled(d, steps, max) <= MAX64 / 2
    ensures NeverOverflows(d, steps, max)
    decreases steps
  {
    if steps > 0 {
      Shift(d, steps - 1);
      if d * 2 > max {
        NthGrows(d * 2, 0, steps - 1);
      } else {
        DelayIsCappedExponential(d * 2, steps - 1, max);
      }
    }
  }

  /** Later retries never wait less. */
  lemma DelayGrows(d: int, n: nat, m: nat, max: int)
    requires 0 < d <= max <= MAX64 / 2 && n <= m
    ensures Doubled(d, n, max) <= Doubled(d, m, max)
  {
    DelayIsCappedExponential(d, n, max);
    DelayIsCappedExponential(d, m, max);
    NthGrows(d, n, m);
  }

  /** Above half the range the doubling can wrap to a negative delay. */
  lemma OverflowExample()
    ensures Doubled(MAX64 / 2 + 1, 1, MAX64) == -MAX64 - 1
  {
    assert Doubled(Wrap((MAX64 / 2 + 1) * 2), 0, MAX64) == Wrap((MAX64 / 2 + 1) * 2);
  }

  // ----- Jitter -----

  function Clamp(ratio: real): real {
    if ratio > 1.0 then 1.0 else ratio
  }

  /** `rand` is the draw from [0, 1). */
  function ApplyJitter(delay: int, ratio: real, rand: real): int {
    if ratio <= 0.0 then delay
    else
      var delta := delay as real * Clamp(ratio);
      var minDelay := delay as real - delta;
      var maxDelay := delay as real + delta;
      var jittered := minDelay + rand * (maxDelay - minDelay);
      if jittered < MILLISECOND as real then MILLISECOND else jittered.Floor
  }

  lemma Product(a: real, b: real, c: real)
    requires 0.0 <= a <= b && 0.0 <= c
    ensures 0.0 <= a * c <= b * c
  {
  }

  lemma AtMostDouble(c: real, n: int)
    requires 0.0 <= c <= 2.0 && 0 <= n
    ensures c * n as real <= (2 * n) as real
  {
    Product(c, 2.0, n as real);
    assert 2.0 * n as real == n as real + n as real == (n + n) as real;
  }

  /** A draw from an interval around the base stays below its upper end. */
  lemma DrawBelow(base: real, delta: real, rand: real)
    requires 0.0 <= delta && 0.0 <= rand < 1.0
    ensures (base - delta) + rand * ((base + delta) - (base - delta)) <= base + delta
  {
    var width := (base + delta) - (base - delta);
    assert width == delta + delta;
    Product(rand, 1.0, width);
    assert 1.0 * width == width;
  }

  lemma Widened(base: real, c: real)
    ensures (1.0 + c) * base == base + base * c
  {
  }

  lemma FloorBelow(x: real, bound: real)
    requires x <= bound
    ensures x.Floor as real <= bound
  {
  }

  lemma FloorGrows(x: real, y: real)
    requires x <= y
    ensures x.Floor <= y.Floor
  {
  }

  lemma DrawAbove(base: real, delta: real, rand: real)
    requires 0.0 <= delta && 0.0 <= rand
    ensures base - delta <= (base - delta) + rand * ((base + delta) - (base - delta))
  {
    Product(0.0, rand, delta + delta);
    assert (base + delta) - (base - delta) == delta + delta;
  }

  lemma Narrowed(base: real, c: real)
    ensures (1.0 - c) * base == base - base * c
  {
  }

  /** What `delay` may be jittered to: nothing else without a ratio, otherwise the interval around it, from 1ms on. */
  predicate WithinJitter(delay: int, ratio: real, wait: int) {
    if ratio <= 0.0 then wait == delay
    else
      && MILLISECOND <= wait
      && (1.0 - Clamp(ratio)) * delay as real < wait as real + 1.0
      && (wait == MILLISECOND || wait as real <= (1.0 + Clamp(ratio)) * delay as real)
  }

  /**
    The jittered delay lies between (1 - r) times the base, cut to whole
    nanoseconds, and (1 + r) times it, but never below one millisecond; without a
    ratio it is the base.
  */
  lemma JitterBounds(delay: int, ratio: real, rand: real)
    requires delay > 0 && 0.0 <= rand < 1.0
    ensures WithinJitter(delay, ratio, ApplyJitter(delay, ratio, rand))
  {
    if ratio > 0.0 {
      var base := delay as real;
      var delta := base * Clamp(ratio);
      Product(0.0, Clamp(ratio), base);
      DrawBelow(base, delta, rand);
      DrawAbove(base, delta, rand);
      Widened(base, Clamp(ratio));
      Narrowed(base, Clamp(ratio));
      FloorBelow((base - delta) + rand * ((base + delta) - (base - delta)), base + delta);
    }
  }

  /** The draw 0 gives the lower end of the interval, a half its middle, and larger draws never a shorter delay. */
  lemma JitterFollowsDraw(delay: int, ratio: real, low: real, high: real)
    requires delay > 0 && ratio > 0.0 && 0.0 <= low <= high < 1.0
    ensures ApplyJitter(delay, ratio, 0.0)
            == if (1.0 - Clamp(ratio)) * delay as real < MILLISECOND as real then MILLISECOND
               else ((1.0 - Clamp(ratio)) * delay as real).Floor
    ensures ApplyJitter(delay, ratio, 0.5) == if delay < MILLISECOND then MILLISECOND else delay
    ensures ApplyJitter(delay, ratio, low) <= ApplyJitter(delay, ratio, high)
  {
    var base := delay as real;
    var delta := base * Clamp(ratio);
    Product(0.0, Clamp(ratio), base);
    Narrowed(base, Clamp(ratio));
    var width := (base + delta) - (base - delta);
    assert width == delta + delta && 0.0 * width == 0.0 && 0.5 * width == delta;
    Product(low, high, width);
    FloorGrows((base - delta) + low * width, (base - delta) + high * width);
  }

  /** Settings that are not positive stand for 30 seconds and 30 minutes. */
  lemma Defaults(cfg: Config)
    ensures cfg.initial <= 0 ==> cfg.Initial() == 30_000_000_000
    ensures cfg.initial > 0 ==> cfg.Initial() == cfg.initial
    ensures cfg.max <= 0 ==> cfg.Max() == 1_800_000_000_000
    ensures cfg.max > 0 ==> cfg.Max() == cfg.max
  {
  }

  lemma JitterFits(base: int, ratio: real, rand: real)
    requires 0 < base <= MAX64 / 2 && 0.0 <= rand < 1.0
    ensures 0 < ApplyJitter(base, ratio, rand) <= MAX64
  {
    if ratio > 0.0 {
      JitterBounds(base, ratio, rand);
      AtMostDouble(1.0 + Clamp(ratio), base);
      hide ApplyJitter, Clamp;
      var wait := ApplyJitter(base, ratio, rand);
      assert wait == MILLISECOND || wait <= 2 * base;
    }
  }

  method NextRetryAt(retryCount: int, cfg: Config, now: int, rand: real) returns (at: int)
    ensures at == now + ApplyJitter(Doubled(cfg.Initial(), Steps(retryCount), cfg.Max()), cfg.ratio, rand)
    ensures 0 < Doubled(cfg.Initial(), Steps(retryCount), cfg.Max()) && 0.0 <= rand < 1.0 ==>
              WithinJitter(Doubled(cfg.Initial(), Steps(retryCount), cfg.Max()), cfg.ratio, at - now)
  {
    var delay := Delay(retryCount, cfg);
    if 0 < delay && 0.0 <= rand < 1.0 {
      JitterBounds(delay, cfg.ratio, rand);
    }
    delay := ApplyJitter(delay, cfg.ratio, rand);
    at := now + delay;
  }

  /** The next attempt is strictly later than now, and the jittered delay still fits in 64 bits. */
  lemma RetryIsLater(retryCount: int, cfg: Config, now: int, rand: real)
    requires cfg.Initial() <= MAX64 / 2 && cfg.Max() <= MAX64 / 2 && 0.0 <= rand < 1.0
    ensures var wait := ApplyJitter(Doubled(cfg.Initial(), Steps(retryCount), cfg.Max()), cfg.ratio, rand);
      now < now + wait && wait <= MAX64
  {
    hide ApplyJitter;
    DelayIsCappedExponential(cfg.Initial(), Steps(retryCount), cfg.Max());
    JitterFits(Doubled(cfg.Initial(), Steps(retryCount), cfg.Max()), cfg.ratio, rand);
  }
}
