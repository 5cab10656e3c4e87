// Retry backoff of the overlay manager (pkgs/fort-overlay-manager/main.go,
// backoffRemaining). Durations are Go's time.Duration: signed 64-bit nanoseconds.
module Backoff {
  import opened Numbers
  import opened Wrappers

  const MAX_RETRY_BACKOFF: int := 6 * HOUR

  /** What time.ParseDuration makes of the configured poll interval; None is a parse error. */
  type PollInterval = p: Option<int> | p.Some? ==> IsInt64(p.value) witness None

  function Base(poll: PollInterval): (base: int)
    ensures 0 < base <= MAX_INT64
  {
    if poll.None? || poll.value <= 0 then 5 * MINUTE else poll.value
  }

  function Pow2(n: nat): (p: nat)
    ensures p >= 1
  {
    if n == 0 then 1 else 2 * Pow2(n - 1)
  }

  /** `base` doubled `n` times, over unbounded integers. */
  function Doubled(base: int, n: nat): int {
    base * Pow2(n)
  }

  lemma DoubledStep(base: int, n: nat)
    ensures Doubled(base, n + 1) == 2 * Doubled(base, n)
  {
    var p := Pow2(n);
    assert base * (2 * p) == 2 * (base * p);
  }

  lemma {:induction false} DoubledGrows(base: int, m: nat, n: nat)
    requires base > 0 && m <= n
    ensures 0 < Doubled(base, m) <= Doubled(base, n)
  {
    if m < n {
      DoubledGrows(base, m, n - 1);
      DoubledStep(base, n - 1);
    } else {
      var p := Pow2(m);
      assert base * p > 0;
    }
  }

  /** Over unbounded integers: base, doubled once per attempt after the first, capped. */
  function Delay(base: int, attempts: int): (d: int) {
    Min(Doubled(base, if attempts <= 1 then 0 else attempts - 1), MAX_RETRY_BACKOFF)
  }

  /** More failed attempts never shorten the delay; it is always positive and at most six hours. */
  lemma DelayMonotone(base: int, m: int, n: int)
    requires base > 0 && m <= n
    ensures 0 < Delay(base, m) <= Delay(base, n) <= MAX_RETRY_BACKOFF
  {
    DoubledGrows(base, if m <= 1 then 0 else m - 1, if n <= 1 then 0 else n - 1);
  }

  /** The delay doubles until it is capped, and stays capped from then on. */
  lemma DelayDoubles(base: int, n: int)
    requires base > 0 && n >= 1
    ensures Delay(base, 1) == Min(base, MAX_RETRY_BACKOFF)
    ensures Delay(base, n + 1) == Min(2 * Delay(base, n), MAX_RETRY_BACKOFF)
  {
    assert Pow2(0) == 1;
    DoubledStep(base, n - 1);
  }

  /** The doubling loop in wrapping 64-bit arithmetic computes the unbounded formula. */
  method CappedDelay(base: int, attempts: int) returns (delay: int)
    requires 0 < base <= MAX_INT64
    ensures delay == Delay(base, attempts)
  {
    delay := base;
    var i := 1;
    assert Pow2(0) == 1;
    while i < attempts && delay < MAX_RETRY_BACKOFF
      invariant 1 <= i && (i <= attempts || i == 1)
      invariant 0 < delay <= MAX_INT64
      invariant delay == Doubled(base, i - 1)
      decreases attempts - i
    {
      DoubledStep(base, i - 1);
      delay := Wrap64(delay * 2);
      i := i + 1;
    }
    if i < attempts {
      DoubledGrows(base, i - 1, attempts - 1);
    }
    if delay > MAX_RETRY_BACKOFF {
      delay := MAX_RETRY_BACKOFF;
    }
  }

  /** `now` is the wall clock in nanoseconds, `at` the recorded whole second. */
  function Elapsed(now: int, at: int): (e: int)
    ensures IsInt64(e)
  {
    Saturate64(now - at * SECOND)
  }

  /** The wait the source reports, with the wrap-around of its final subtraction. */
  function Remaining(poll: PollInterval, attempts: int, at: int, now: int): int {
    var delay := Delay(Base(poll), attempts);
    var elapsed := Elapsed(now, at);
    if elapsed >= delay then 0 else Wrap64(delay - elapsed)
  }

  method BackoffRemaining(poll: PollInterval, attempts: int, at: int, now: int) returns (wait: int)
    ensures wait == Remaining(poll, attempts, at, now)
  {
    var base := if poll.Some? then poll.value else 0;
    if poll.None? || base <= 0 {
      base := 5 * MINUTE;
    }
    var delay := CappedDelay(base, attempts);
    var elapsed := Elapsed(now, at);
    if elapsed >= delay {
      return 0;
    }
    wait := Wrap64(delay - elapsed);
  }

  /** Right after the first failure the wait is the configured interval, or five minutes if it
      is unusable, and never more than six hours. */
  lemma FirstWait(poll: PollInterval, at: int)
    ensures Remaining(poll, 1, at, at * SECOND) ==
      Min(if poll.Some? && poll.value > 0 then poll.value else 5 * 60 * 1_000_000_000, 6 * 60 * 60 * 1_000_000_000)
  {
    assert Pow2(0) == 1;
  }

  /** With the clock at or past the record, the wait is zero exactly when the delay has
      elapsed, is the outstanding part of the delay otherwise, and never exceeds six hours. */
  lemma RemainingExact(poll: PollInterval, attempts: int, at: int, now: int)
    requires at * SECOND <= now
    ensures var wait := Remaining(poll, attempts, at, now);
      var delay := Delay(Base(poll), attempts);
      && 0 <= wait <= delay <= MAX_RETRY_BACKOFF
      && (wait == 0 <==> now - at * SECOND >= delay)
      && (wait > 0 ==> now + wait == at * SECOND + delay)
  {
    DelayMonotone(Base(poll), attempts, attempts);
  }

  /** A clock set back far enough wraps the subtraction: the path is then not skipped
      although its delay has not elapsed. This happens exactly below the stated bound. */
  lemma SkippedUnlessClockWraps(poll: PollInterval, attempts: int, at: int, now: int)
    ensures var delay := Delay(Base(poll), attempts);
      Remaining(poll, attempts, at, now) > 0 <==>
        now - at * SECOND < delay && delay - Elapsed(now, at) <= MAX_INT64
  {
    DelayMonotone(Base(poll), attempts, attempts);
  }
}
