/** Retry delays over the reals (packages/queue/src/queue/worker/with-worker.ts, lines 416-432). */
module Backoff {

  /** The options that `withRetry` accepts (packages/queue/src/queue/retry/with-retry.ts, lines 99-123). */
  datatype Retry = Retry(maxAttempts: nat, initialDelayMs: real, maxDelayMs: real, jitter: real)

  predicate Accepted(r: Retry) {
    r.maxAttempts >= 1 && 0.0 <= r.initialDelayMs <= r.maxDelayMs && 0.0 <= r.jitter <= 1.0
  }

  /** x * 2^n */
  function Doubled(x: real, n: int): real
    decreases if n >= 0 then n else -n
  {
    if n == 0 then x else if n > 0 then 2.0 * Doubled(x, n - 1) else Doubled(x, n + 1) / 2.0
  }

  function Min(a: real, b: real): real {
    if a <= b then a else b
  }

  /** `Math.round`: halves go up. */
  function Round(x: real): real {
    (x + 0.5).Floor as real
  }

  /** An attempt is at least 1 unless a reschedule asked for less. */
  function Exponent(attempt: int): int {
    if attempt - 1 <= 52 then attempt - 1 else 52
  }

  function BaseDelay(r: Retry, attempt: int): real {
    Min(r.maxDelayMs, Doubled(r.initialDelayMs, Exponent(attempt)))
  }

  /** The factor that jitter applies; `random` is the value of `Math.random()`. */
  function Spread(jitter: real, random: real): real {
    1.0 - jitter + random * jitter * 2.0
  }

  function Jittered(base: real, spread: real): real {
    Round(base * spread)
  }

  function Delay(r: Retry, attempt: int, random: real): real {
    Min(r.maxDelayMs, Jittered(BaseDelay(r, attempt), Spread(r.jitter, random)))
  }

  // ----------------------------------------------------------------- bounds

  lemma ScaleIsMonotone(base: real, a: real, b: real)
    requires base >= 0.0 && a <= b
    ensures base * a <= base * b
  {
  }

  lemma SpreadIsBounded(jitter: real, random: real)
    requires 0.0 <= jitter <= 1.0 && 0.0 <= random < 1.0
    ensures 0.0 <= 1.0 - jitter <= Spread(jitter, random) <= 1.0 + jitter
  {
    ScaleIsMonotone(jitter * 2.0, 0.0, random);
    ScaleIsMonotone(jitter * 2.0, random, 1.0);
    assert random * jitter * 2.0 == (jitter * 2.0) * random;
  }

  lemma QuotientIsFraction(a: real, w: real)
    requires 0.0 <= a < w
    ensures 0.0 <= a / w < 1.0 && a / w * w == a
  {
  }

  /** Every factor of the interval occurs, the least one too. */
  lemma EverySpreadOccurs(jitter: real, factor: real) returns (random: real)
    requires 0.0 < jitter <= 1.0 && 1.0 - jitter <= factor < 1.0 + jitter
    ensures 0.0 <= random < 1.0 && Spread(jitter, random) == factor
  {
    var above, width := factor - (1.0 - jitter), jitter * 2.0;
    random := above / width;
    QuotientIsFraction(above, width);
    assert random * jitter * 2.0 == random * width;
  }

  /** The nearest whole number, the greater one of two. */
  lemma RoundIsNear(x: real)
    ensures x - 0.5 < Round(x) <= x + 0.5 && Round(x) == Round(x).Floor as real
    ensures x >= 0.0 ==> Round(x) >= 0.0
  {
  }

  lemma ScaledIsNear(base: real, low: real, spread: real, high: real)
    requires base >= 0.0 && 0.0 <= low <= spread <= high
    ensures 0.0 <= Jittered(base, spread)
    ensures base * low - 0.5 <= Jittered(base, spread) <= base * high + 0.5
  {
    ScaleIsMonotone(base, low, spread);
    ScaleIsMonotone(base, spread, high);
    ScaleIsMonotone(base, 0.0, spread);
    RoundIsNear(base * spread);
  }

  /** Before the cap a delay is non-negative and within 1/2 of the jitter interval. */
  lemma JitterIsBounded(base: real, jitter: real, random: real)
    requires base >= 0.0 && 0.0 <= jitter <= 1.0 && 0.0 <= random < 1.0
    ensures 0.0 <= Jittered(base, Spread(jitter, random)) == Jittered(base, Spread(jitter, random)).Floor as real
    ensures base * (1.0 - jitter) - 0.5 <= Jittered(base, Spread(jitter, random)) <= base * (1.0 + jitter) + 0.5
  {
    SpreadIsBounded(jitter, random);
    ScaledIsNear(base, 1.0 - jitter, Spread(jitter, random), 1.0 + jitter);
  }

  lemma {:induction false} DoubledStep(x: real, n: int)
    requires x >= 0.0
    ensures Doubled(x, n + 1) == 2.0 * Doubled(x, n) && Doubled(x, n) >= 0.0
    decreases if n >= 0 then n else -n
  {
    if n > 0 {
      DoubledStep(x, n - 1);
    } else if n < 0 {
      DoubledStep(x, n + 1);
    }
  }

  lemma {:induction false} DoubledIsMonotone(x: real, m: int, n: int)
    requires x >= 0.0 && m <= n
    ensures 0.0 <= Doubled(x, m) <= Doubled(x, n)
    decreases n - m
  {
    DoubledStep(x, m);
    if m < n {
      DoubledIsMonotone(x, m + 1, n);
    }
  }

  lemma {:induction false} DoubledScales(x: real, n: nat, g: real, c: real)
    requires c == x * g
    ensures g * Doubled(x, n) == Doubled(c, n)
  {
    if n > 0 {
      DoubledScales(x, n - 1, g, c);
    }
  }

  /** The base delay stays in [0, max] and never shrinks from one attempt to a later one. */
  lemma BaseDelayIsMonotone(r: Retry, a: int, b: int)
    requires Accepted(r) && a <= b
    ensures 0.0 <= BaseDelay(r, a) <= BaseDelay(r, b) <= r.maxDelayMs
  {
    DoubledIsMonotone(r.initialDelayMs, Exponent(a), Exponent(b));
  }

  /** The base delay of the first retry is the initial delay; each further one is twice as long until
      the maximum is reached, and from attempt 53 on it stays as it is. */
  lemma BaseDelayDoubles(r: Retry, attempt: int)
    requires Accepted(r)
    ensures BaseDelay(r, 1) == r.initialDelayMs
    ensures attempt <= 52 ==> BaseDelay(r, attempt + 1) == Min(r.maxDelayMs, 2.0 * BaseDelay(r, attempt))
    ensures attempt >= 53 ==> BaseDelay(r, attempt) == BaseDelay(r, 53)
  {
    DoubledStep(r.initialDelayMs, attempt - 1);
  }

  /** Every retry delay is in [0, max], and up to the maximum it is within 1/2 of the jitter interval
      around the base delay. */
  lemma DelayIsBounded(r: Retry, attempt: int, random: real)
    requires Accepted(r) && 0.0 <= random < 1.0
    ensures var base, delay := BaseDelay(r, attempt), Delay(r, attempt, random);
      && 0.0 <= delay <= r.maxDelayMs
      && Min(r.maxDelayMs, base * (1.0 - r.jitter) - 0.5) <= delay <= base * (1.0 + r.jitter) + 0.5
  {
    BaseDelayIsMonotone(r, attempt, attempt);
    JitterIsBounded(BaseDelay(r, attempt), r.jitter, random);
  }

  lemma JitterTop(base: real, spread: real, g: real)
    requires base >= 0.0 && 0.0 <= spread <= g
    ensures Jittered(base, spread) <= g * base + 0.5
  {
    ScaledIsNear(base, 0.0, spread, g);
    assert base * g == g * base;
  }

  lemma ScaledDoubled(base: real, initial: real, n: nat, g: real, c: real)
    requires 0.0 <= base <= Doubled(initial, n) && g >= 0.0 && c == initial * g
    ensures g * base <= Doubled(c, n)
  {
    ScaleIsMonotone(g, base, Doubled(initial, n));
    DoubledScales(initial, n, g, c);
  }

  lemma JitteredGrowth(base: real, initial: real, n: nat, spread: real, g: real, c: real)
    requires 0.0 <= base <= Doubled(initial, n) && 0.0 <= spread <= g && c == initial * g
    ensures Jittered(base, spread) <= Doubled(c, n) + 0.5
  {
    JitterTop(base, spread, g);
    ScaledDoubled(base, initial, n, g, c);
  }

  lemma BaseDelayGrowth(r: Retry, attempt: nat)
    requires Accepted(r) && attempt >= 1
    ensures BaseDelay(r, attempt) <= Doubled(r.initialDelayMs, attempt - 1)
  {
    DoubledIsMonotone(r.initialDelayMs, Exponent(attempt), attempt - 1);
  }

  lemma DelayGrowth(r: Retry, attempt: nat, random: real, c: real)
    requires Accepted(r) && 0.0 <= random < 1.0 && attempt >= 1
    requires c == r.initialDelayMs * (1.0 + r.jitter)
    ensures Delay(r, attempt, random) <= Doubled(c, attempt - 1) + 0.5
  {
    var base, g := BaseDelay(r, attempt), 1.0 + r.jitter;
    BaseDelayIsMonotone(r, attempt, attempt);
    BaseDelayGrowth(r, attempt);
    SpreadIsBounded(r.jitter, random);
    JitteredGrowth(base, r.initialDelayMs, attempt - 1, Spread(r.jitter, random), g, c);
  }

  // ------------------------------------------------------------- whole runs

  function Sum(delays: seq<real>): real {
    if delays == [] then 0.0 else Sum(delays[..|delays| - 1]) + delays[|delays| - 1]
  }

  /** The delays after failed deliveries 1, 2, ... with the given random draws. */
  function Delays(r: Retry, randoms: seq<real>): seq<real> {
    seq(|randoms|, i requires 0 <= i < |randoms| => Delay(r, i + 1, randoms[i]))
  }

  ghost predicate RandomDraws(randoms: seq<real>) {
    forall i :: 0 <= i < |randoms| ==> 0.0 <= randoms[i] < 1.0
  }

  lemma {:induction false} SumIsCapped(delays: seq<real>, cap: real)
    requires forall i :: 0 <= i < |delays| ==> 0.0 <= delays[i] <= cap
    ensures 0.0 <= Sum(delays) <= |delays| as real * cap
  {
    if delays != [] {
      var n: nat := |delays| - 1;
      SumIsCapped(delays[..n], cap);
      assert (n + 1) as real == n as real + 1.0;
      assert (n as real + 1.0) * cap == n as real * cap + cap;
    }
  }

  lemma {:induction false} SumIsGeometric(delays: seq<real>, c: real)
    requires Geometric(delays, c)
    ensures Sum(delays) <= Doubled(c, |delays|) - c + |delays| as real / 2.0
  {
    if delays != [] {
      var n: nat := |delays| - 1;
      SumIsGeometric(delays[..n], c);
    }
  }

  ghost predicate Geometric(delays: seq<real>, c: real) {
    forall i: nat :: i < |delays| ==> delays[i] <= Doubled(c, i) + 0.5
  }

  lemma DelaysAreGeometric(r: Retry, randoms: seq<real>, c: real)
    requires Accepted(r) && RandomDraws(randoms)
    requires c == r.initialDelayMs * (1.0 + r.jitter)
    ensures Geometric(Delays(r, randoms), c)
  {
    forall i: nat | i < |randoms|
      ensures Delay(r, i + 1, randoms[i]) <= Doubled(c, i) + 0.5
    {
      DelayGrowth(r, i + 1, randoms[i], c);
    }
  }

  lemma DelaysAreCapped(r: Retry, randoms: seq<real>)
    requires Accepted(r) && RandomDraws(randoms)
    ensures forall i :: 0 <= i < |randoms| ==> 0.0 <= Delays(r, randoms)[i] <= r.maxDelayMs
  {
    forall i: nat | i < |randoms|
      ensures 0.0 <= Delays(r, randoms)[i] <= r.maxDelayMs
    {
      DelayIsBounded(r, i + 1, randoms[i]);
    }
  }

  lemma TotalWaitIsCapped(r: Retry, randoms: seq<real>)
    requires Accepted(r) && RandomDraws(randoms)
    ensures 0.0 <= Sum(Delays(r, randoms)) <= |randoms| as real * r.maxDelayMs
  {
    DelaysAreCapped(r, randoms);
    SumIsCapped(Delays(r, randoms), r.maxDelayMs);
  }

  lemma TotalWaitIsGeometric(r: Retry, randoms: seq<real>, c: real)
    requires Accepted(r) && RandomDraws(randoms)
    requires c == r.initialDelayMs * (1.0 + r.jitter)
    ensures Sum(Delays(r, randoms)) <= Doubled(c, |randoms|) - c + |randoms| as real / 2.0
  {
    DelaysAreGeometric(r, randoms, c);
    SumIsGeometric(Delays(r, randoms), c);
  }

  /** A run with n retries waits at most n maximal delays, and at most
      c * (2^n - 1) + n / 2 where c is the largest possible first delay. */
  lemma TotalWaitIsBounded(r: Retry, randoms: seq<real>, c: real)
    requires Accepted(r) && RandomDraws(randoms)
    requires c == r.initialDelayMs * (1.0 + r.jitter)
    ensures var wait, n := Sum(Delays(r, randoms)), |randoms|;
      && 0.0 <= wait <= n as real * r.maxDelayMs
      && wait <= Doubled(c, n) - c + n as real / 2.0
  {
    TotalWaitIsCapped(r, randoms);
    TotalWaitIsGeometric(r, randoms, c);
  }
}
