// The post-activation probe loop of the overlay manager
// (pkgs/fort-overlay-manager/main.go, runHealthChecks). Durations are in nanoseconds.
module HealthChecks {
  import opened Numbers

  const SAFETY_CAP: int := 60 * SECOND

  /** The configured probe; any other type string never succeeds. */
  datatype Kind = Http | Tcp | Exec | Unknown

  /** The world one loop run meets: whether the k-th probe would succeed, and what
      `time.Since(start)` reads the k-th time the loop guard consults it. Every reading
      after the first is preceded by a sleep of one interval. */
  datatype World = World(probe: nat -> bool, clock: nat -> int)

  ghost predicate ClockFlows(w: World, interval: int) {
    && w.clock(0) >= 0
    && (forall j: nat, k: nat :: j <= k ==> w.clock(j) <= w.clock(k))
    && (forall j: nat, k: nat :: k == j + 1 ==> w.clock(j) + interval <= w.clock(k))
  }

  function ProbeResult(kind: Kind, w: World, k: nat): bool {
    kind != Unknown && w.probe(k)
  }

  /** Number of successes at the end of the first `n` probes. */
  function Streak(kind: Kind, w: World, n: nat): (r: nat)
    ensures r <= n
  {
    if n == 0 || !ProbeResult(kind, w, n - 1) then 0 else Streak(kind, w, n - 1) + 1
  }

  /** A streak of `r` means exactly that: the last `r` probes succeeded, the one before did not. */
  lemma {:induction false} StreakIsFinalRun(kind: Kind, w: World, n: nat)
    ensures var r := Streak(kind, w, n);
      && (forall k: nat :: n - r <= k < n ==> ProbeResult(kind, w, k))
      && (r < n ==> !ProbeResult(kind, w, n - 1 - r))
  {
    if n > 0 && ProbeResult(kind, w, n - 1) {
      StreakIsFinalRun(kind, w, n - 1);
    }
  }

  /** The interval, added once per success in a row. */
  function Covered(streak: nat, interval: int): int {
    if streak == 0 then 0 else Covered(streak - 1, interval) + interval
  }

  lemma {:induction false} CoveredIsProduct(streak: nat, interval: int)
    ensures Covered(streak, interval) == streak * interval
  {
    if streak > 0 {
      CoveredIsProduct(streak - 1, interval);
      assert streak * interval == (streak - 1) * interval + interval;
    }
  }

  lemma {:induction false} CoveredSign(streak: nat, interval: int)
    ensures interval <= 0 ==> Covered(streak, interval) <= 0
    ensures interval >= 0 ==> Covered(streak, interval) >= 0
  {
    if streak > 0 {
      CoveredSign(streak - 1, interval);
    }
  }

  /** The loop guard after `n` probes. */
  ghost predicate Continues(kind: Kind, w: World, interval: int, stabilize: int, n: nat) {
    && Covered(Streak(kind, w, n), interval) < stabilize
    && w.clock(n) < stabilize + SAFETY_CAP
  }

  /** `n` probes were made: the guard held after every smaller number, and failed after `n`. */
  ghost predicate StopsAt(kind: Kind, w: World, interval: int, stabilize: int, n: nat) {
    && !Continues(kind, w, interval, stabilize, n)
    && forall m: nat :: m < n ==> Continues(kind, w, interval, stabilize, m)
  }

  /** `limit` witnesses that time passes: by that reading the safety cap is reached. The
      accumulator always equals the interval times the current streak of successes. */
  method RunHealthChecks(kind: Kind, interval: int, stabilize: int, w: World, ghost limit: nat)
      returns (healthy: bool, probes: nat)
    requires ClockFlows(w, interval)
    requires w.clock(limit) >= stabilize + SAFETY_CAP
    ensures StopsAt(kind, w, interval, stabilize, probes)
    ensures healthy <==> Covered(Streak(kind, w, probes), interval) >= stabilize
  {
    var consecutiveOK := 0;
    ghost var streak: nat := 0;
    probes := 0;
    while consecutiveOK < stabilize && w.clock(probes) < stabilize + SAFETY_CAP
      invariant streak == Streak(kind, w, probes)
      invariant consecutiveOK == Covered(streak, interval)
      invariant forall m: nat :: m < probes ==> Continues(kind, w, interval, stabilize, m)
      invariant probes <= limit
      decreases limit - probes
    {
      var ok := false;
      match kind {
        case Http | Tcp | Exec => ok := w.probe(probes);
        case Unknown =>
      }
      if ok {
        consecutiveOK := consecutiveOK + interval;
        streak := streak + 1;
      } else {
        consecutiveOK := 0;
        streak := 0;
      }
      probes := probes + 1;
    }
    healthy := consecutiveOK >= stabilize;
  }

  lemma {:induction false} ClockCoversSleeps(w: World, interval: int, n: nat)
    requires ClockFlows(w, interval)
    ensures w.clock(n) >= n * interval
  {
    if n > 0 {
      ClockCoversSleeps(w, interval, n - 1);
      assert n * interval == (n - 1) * interval + interval;
    }
  }

  /** `r` intervals cover the stabilisation period and `r - 1` do not. */
  predicate FirstToCover(r: nat, interval: int, stabilize: int) {
    r > 0 && Covered(r, interval) >= stabilize > Covered(r - 1, interval)
  }

  /** An overlay is accepted only after an unbroken final run of `r` successful probes that
      covers the stabilisation period, and no shorter run would have been accepted. */
  lemma AcceptedOnlyWhenStable(kind: Kind, w: World, interval: int, stabilize: int, n: nat)
    requires StopsAt(kind, w, interval, stabilize, n)
    requires Covered(Streak(kind, w, n), interval) >= stabilize > 0
    ensures exists r: nat :: r <= n && FirstToCover(r, interval, stabilize)
                             && kind != Unknown && forall k: nat :: n - r <= k < n ==> w.probe(k)
  {
    var r := Streak(kind, w, n);
    StreakIsFinalRun(kind, w, n);
    assert r > 0;
    assert Continues(kind, w, interval, stabilize, n - 1);
    assert FirstToCover(r, interval, stabilize);
    assert ProbeResult(kind, w, n - 1);
    forall k: nat | n - r <= k < n ensures w.probe(k) {
      assert ProbeResult(kind, w, k);
    }
  }

  /** Acceptance, exactly: some number of probes reaches the stabilisation period before any
      guard reading hits the safety cap. */
  lemma AcceptedIff(kind: Kind, w: World, interval: int, stabilize: int, n: nat)
    requires StopsAt(kind, w, interval, stabilize, n)
    ensures Covered(Streak(kind, w, n), interval) >= stabilize <==>
            exists m: nat :: Covered(Streak(kind, w, m), interval) >= stabilize
                             && forall k: nat :: k < m ==> w.clock(k) < stabilize + 60 * 1_000_000_000
  {
    assert forall m: nat :: m < n ==> Covered(Streak(kind, w, m), interval) < stabilize by {
      forall m: nat | m < n ensures Covered(Streak(kind, w, m), interval) < stabilize {
        assert Continues(kind, w, interval, stabilize, m);
      }
    }
    if Covered(Streak(kind, w, n), interval) >= stabilize {
      forall k: nat | k < n ensures w.clock(k) < stabilize + SAFETY_CAP {
        assert Continues(kind, w, interval, stabilize, k);
      }
    }
  }

  /** With a positive interval at most ceil((stabilize + 60s) / interval) probes are made. */
  lemma ProbeBound(kind: Kind, w: World, interval: int, stabilize: int, n: nat)
    requires ClockFlows(w, interval) && interval > 0
    requires StopsAt(kind, w, interval, stabilize, n)
    ensures stabilize <= 0 ==> n == 0
    ensures stabilize > 0 ==> n <= (stabilize + SAFETY_CAP + interval - 1) / interval
  {
    if n > 0 {
      assert Continues(kind, w, interval, stabilize, n - 1);
      CoveredSign(Streak(kind, w, n - 1), interval);
      ClockCoversSleeps(w, interval, n - 1);
      var cap := stabilize + SAFETY_CAP;
      assert n * interval == (n - 1) * interval + interval;
      assert n * interval <= cap + interval - 1;
      DivisionBound(n, interval, cap + interval - 1);
    }
  }

  lemma DivisionBound(n: nat, d: int, x: int)
    requires d > 0 && n * d <= x
    ensures n <= x / d
  {
    var q := x / d;
    assert x < (q + 1) * d;
    if n >= q + 1 {
      ProductMonotone(q + 1, n, d);
    }
  }

  lemma ProductMonotone(a: int, b: int, d: int)
    requires a <= b && d >= 0
    ensures a * d <= b * d
  {
    assert b * d - a * d == (b - a) * d;
  }

  /** Some service, probed at some speed, is accepted under this configuration. */
  ghost predicate Acceptable(kind: Kind, interval: int, stabilize: int) {
    exists w: World, n: nat :: AcceptedAfter(kind, w, interval, stabilize, n)
  }

  ghost predicate AcceptedAfter(kind: Kind, w: World, interval: int, stabilize: int, n: nat) {
    ClockFlows(w, interval) && StopsAt(kind, w, interval, stabilize, n)
    && Covered(Streak(kind, w, n), interval) >= stabilize
  }

  /** A configuration can be passed at all exactly if there is nothing to wait for, or the type
      of probe is known and the interval is positive. So a manifest that asks for a positive
      period but leaves the interval out (zero) is never passed, however healthy the service. */
  lemma AcceptableIff(kind: Kind, interval: int, stabilize: int)
    ensures Acceptable(kind, interval, stabilize) <==> stabilize <= 0 || (kind != Unknown && interval > 0)
  {
    if stabilize <= 0 {
      var w := World((k: nat) => true, (k: nat) => k * Max(interval, 0));
      PerfectClock(w, interval);
      assert AcceptedAfter(kind, w, interval, stabilize, 0);
    } else if kind != Unknown && interval > 0 {
      PerfectServiceAccepted(kind, interval, stabilize);
    } else {
      forall w: World, n: nat ensures !AcceptedAfter(kind, w, interval, stabilize, n) {
        NeverCovered(kind, w, interval, n);
      }
    }
  }

  lemma NeverCovered(kind: Kind, w: World, interval: int, n: nat)
    requires kind == Unknown || interval <= 0
    ensures Covered(Streak(kind, w, n), interval) <= 0
  {
    if interval <= 0 {
      CoveredSign(Streak(kind, w, n), interval);
    }
  }

  lemma PerfectClock(w: World, interval: int)
    requires forall k: nat :: w.clock(k) == k * Max(interval, 0)
    ensures ClockFlows(w, interval)
  {
    var step := Max(interval, 0);
    forall j: nat, k: nat | j <= k ensures w.clock(j) <= w.clock(k) {
      ProductMonotone(j, k, step);
    }
    forall j: nat, k: nat | k == j + 1 ensures w.clock(j) + interval <= w.clock(k) {
      assert k * step == j * step + step;
    }
  }

  lemma {:induction false} PerfectStreak(kind: Kind, w: World, n: nat)
    requires kind != Unknown && forall k: nat :: w.probe(k)
    ensures Streak(kind, w, n) == n
  {
    if n > 0 {
      PerfectStreak(kind, w, n - 1);
    }
  }

  /** The smallest number of intervals that covers the period. */
  lemma {:induction false} FirstCover(interval: int, stabilize: int, start: nat) returns (r: nat)
    requires interval > 0 && Covered(start, interval) < stabilize
    ensures FirstToCover(r, interval, stabilize)
    decreases stabilize - Covered(start, interval)
  {
    if Covered(start + 1, interval) >= stabilize {
      r := start + 1;
    } else {
      r := FirstCover(interval, stabilize, start + 1);
    }
  }

  /** A service that is always healthy, probed without delay, passes. */
  lemma PerfectServiceAccepted(kind: Kind, interval: int, stabilize: int)
    requires kind != Unknown && interval > 0 && stabilize > 0
    ensures Acceptable(kind, interval, stabilize)
  {
    var w := World((k: nat) => true, (k: nat) => k * Max(interval, 0));
    PerfectClock(w, interval);
    var r := FirstCover(interval, stabilize, 0);
    forall m: nat | m < r ensures Continues(kind, w, interval, stabilize, m) {
      PerfectStreak(kind, w, m);
      CoveredIsProduct(m, interval);
      CoveredIsProduct(r - 1, interval);
      ProductMonotone(m, r - 1, interval);
    }
    PerfectStreak(kind, w, r);
    assert AcceptedAfter(kind, w, interval, stabilize, r);
  }
}
