/** The run-wide ETA and percentage, over exact reals. Times are in seconds. */
module Progress {
  import opened Wrappers

  const MIN_SPEED_FACTOR := 0.05
  const MAX_SPEED_FACTOR := 20.0
  const FULL_CALIBRATION_WORK := 120.0
  const MAX_REPORTABLE_ETA := 2592000.0

  function Max(a: real, b: real): (m: real) {
    if a < b then b else a
  }

  function Min(a: real, b: real): (m: real) {
    if a < b then a else b
  }

  /** How long a task running for `e` seconds against `x` expected still has. */
  function ClockRemaining(e: real, x: real): (left: real)
    requires 0.0 <= e && 0.0 < x
  {
    if e <= x / 2.0 then x - e else x * x / (4.0 * e)
  }

  /** One task as a snapshot sees it: its expected duration, already scaled, and when it started. */
  datatype TaskView = TaskView(completed: bool, finishedItems: bool, started: Option<real>, expected: real)

  function TaskRemaining(t: TaskView, now: real): (left: real)
    requires 0.0 < t.expected
    ensures t.completed || t.finishedItems ==> left == 0.0
    ensures !t.completed && !t.finishedItems && t.started.None? ==> left == t.expected
  {
    if t.completed || t.finishedItems then 0.0
    else if t.started.None? then t.expected
    else ClockRemaining(Max(0.0, now - t.started.value), t.expected)
  }

  ghost predicate Sized(phase: seq<TaskView>) {
    forall k | 0 <= k < |phase| :: 0.0 < phase[k].expected
  }

  ghost predicate AllSized(phases: seq<seq<TaskView>>) {
    forall k | 0 <= k < |phases| :: Sized(phases[k])
  }

  /** The time left on a phase's slowest task. */
  function PhaseRemaining(phase: seq<TaskView>, now: real): (left: real)
    requires Sized(phase)
  {
    if phase == [] then 0.0
    else Max(PhaseRemaining(phase[..|phase| - 1], now), TaskRemaining(phase[|phase| - 1], now))
  }

  function Remaining(phases: seq<seq<TaskView>>, now: real): (left: real)
    requires AllSized(phases)
  {
    if phases == [] then 0.0
    else Remaining(phases[..|phases| - 1], now) + PhaseRemaining(phases[|phases| - 1], now)
  }

  method RemainingSeconds(phases: seq<seq<TaskView>>, now: real) returns (total: real)
    requires AllSized(phases)
    ensures total == Remaining(phases, now)
  {
    total := 0.0;
    for i := 0 to |phases|
      invariant total == Remaining(phases[..i], now)
    {
      var phase := phases[i];
      var slowest := 0.0;
      for j := 0 to |phase|
        invariant slowest == PhaseRemaining(phase[..j], now)
      {
        assert phase[..j + 1][..j] == phase[..j];
        slowest := Max(slowest, TaskRemaining(phase[j], now));
      }
      assert phase[..|phase|] == phase && phases[..i + 1][..i] == phases[..i];
      total := total + slowest;
    }
    assert phases[..|phases|] == phases;
  }

  // ---------------------------------------------------------------------------
  // The clock model

  lemma MulOrder(a: real, b: real, c: real)
    requires a <= b && 0.0 <= c
    ensures a * c <= b * c
  {
  }

  lemma MulStrict(a: real, b: real, c: real)
    requires a < b && 0.0 < c
    ensures a * c < b * c
  {
  }

  lemma MulUnits(c: real)
    ensures 0.0 * c == 0.0 && 1.0 * c == c
  {
  }

  /** Cross-multiplication by a positive divisor. */
  lemma QuotientBounds(n: real, d: real, q: real)
    requires 0.0 < d
    ensures n <= q * d <==> n / d <= q
    ensures q * d <= n <==> q <= n / d
    ensures q * d < n <==> q < n / d
  {
    var r := n / d;
    assert r * d == n;
    if q < r {
      MulStrict(q, r, d);
    } else if r < q {
      MulStrict(r, q, d);
    }
  }

  lemma ProductPositive(x: real, y: real)
    requires 0.0 < x && 0.0 < y
    ensures 0.0 < x * y
  {
  }

  lemma Rearrangement(a: real, b: real, c: real, d: real)
    requires a < b && c < d
    ensures a * d + b * c < a * c + b * d
  {
    ProductPositive(b - a, d - c);
    assert (b - a) * (d - c) == b * d - b * c - a * d + a * c;
  }

  lemma QuotientAbove(r: real, x: real, y: real, d: real)
    requires 0.0 < d && r * d < x * y
    ensures r < x * y / d
  {
    var n := x * y;
    QuotientBounds(n, d, r);
  }

  lemma QuotientPositive(x: real, y: real, d: real)
    requires 0.0 < x && 0.0 < y && 0.0 < d
    ensures 0.0 < x * y / d
  {
    ProductPositive(x, y);
    MulUnits(d);
    QuotientAbove(0.0, x, y, d);
  }

  /** 4ex < 4e^2 + x^2 when x < 2e, so the tail lies above the straight line. */
  lemma TailAboveLine(e: real, x: real)
    requires 0.0 < x && x / 2.0 < e
    ensures 0.0 < x * x / (4.0 * e)
    ensures x < e + x * x / (4.0 * e)
  {
    Rearrangement(x, 2.0 * e, x, 2.0 * e);
    QuotientAbove(x - e, x, x, 4.0 * e);
    QuotientPositive(x, x, 4.0 * e);
  }

  /**
   * A running task never reports less than what its expected duration leaves, and
   * exactly that during the first half; it never reaches zero by running late.
   */
  lemma ClockNeverUnderestimates(e: real, x: real)
    requires 0.0 <= e && 0.0 < x
    ensures 0.0 < ClockRemaining(e, x)
    ensures x <= e + ClockRemaining(e, x)
    ensures e + ClockRemaining(e, x) == x <==> e <= x / 2.0
  {
    if x / 2.0 < e {
      TailAboveLine(e, x);
    }
  }

  /**
   * Running late, a task's estimate keeps shrinking: it is in inverse proportion to the
   * time the task has taken, so it falls below any bound but never below zero.
   */
  lemma LateTaskKeepsShrinking(e: real, e': real, x: real)
    requires 0.0 < x && x / 2.0 <= e < e'
    ensures 0.0 < ClockRemaining(e', x) < ClockRemaining(e, x) <= x / 2.0
    ensures ClockRemaining(e, x) * e == ClockRemaining(e', x) * e' == x * x / 4.0
  {
    TailMeetsLine(x);
    TailTimesElapsed(e, x);
    TailTimesElapsed(e', x);
    var a, b := ClockRemaining(e, x), ClockRemaining(e', x);
    ClockNeverUnderestimates(e', x);
    SmallerFactor(b, e', a, e);
    ClockFallsNoFasterThanTime(x / 2.0, e, x);
  }

  lemma SmallerFactor(a: real, e: real, b: real, d: real)
    requires 0.0 < a && 0.0 < d < e && a * e == b * d
    ensures a < b
  {
    MulStrict(d, e, a);
    assert d * a == a * d && e * a == a * e;
    if b <= a {
      MulOrder(b, a, d);
    }
  }

  lemma TailTimesElapsed(e: real, x: real)
    requires 0.0 < x && x / 2.0 <= e
    ensures ClockRemaining(e, x) * e == x * x / 4.0
  {
    if e == x / 2.0 {
      TailMeetsLine(x);
    }
    var a := x * x / (4.0 * e);
    assert a * (4.0 * e) == x * x;
    assert a * (4.0 * e) == 4.0 * (a * e);
  }

  lemma TailMeetsLine(x: real)
    requires 0.0 < x
    ensures x * x / (4.0 * (x / 2.0)) == x / 2.0
  {
    var h := x / 2.0;
    assert x == 2.0 * h;
    assert h * (4.0 * h) == x * x;
    QuotientBounds(x * x, 4.0 * h, h);
  }

  /** As time passes the estimate falls, but never faster than the clock. */
  lemma ClockFallsNoFasterThanTime(e: real, e': real, x: real)
    requires 0.0 <= e <= e' && 0.0 < x
    ensures ClockRemaining(e', x) <= ClockRemaining(e, x) <= ClockRemaining(e', x) + (e' - e)
  {
    if x / 2.0 < e {
      TailFallsSlowly(e, e', x);
    } else if x / 2.0 < e' {
      TailFallsSlowly(x / 2.0, e', x);
      TailMeetsLine(x);
    }
  }

  lemma TailFallsSlowly(e: real, e': real, x: real)
    requires 0.0 < x && x / 2.0 <= e <= e'
    ensures x * x / (4.0 * e') <= x * x / (4.0 * e) <= x * x / (4.0 * e') + (e' - e)
  {
    var q, a := x * x, x * x / (4.0 * e);
    assert a * (4.0 * e) == q;
    MulOrder(0.0, x, x);
    QuotientBounds(q, 4.0 * e, 0.0);
    TailBelowElapsed(e, x);
    TailFalls(a, q, e, e');
  }

  lemma TailBelowElapsed(e: real, x: real)
    requires 0.0 < x && x / 2.0 <= e
    ensures x * x / (4.0 * e) <= e
  {
    MulOrder(x, 2.0 * e, x);
    MulOrder(x, 2.0 * e, 2.0 * e);
    assert x * x <= e * (4.0 * e);
    QuotientBounds(x * x, 4.0 * e, e);
  }

  lemma TailFalls(a: real, q: real, e: real, e': real)
    requires 0.0 < e <= e' && 0.0 <= a <= e && a * (4.0 * e) == q
    ensures q / (4.0 * e') <= a <= q / (4.0 * e') + (e' - e)
  {
    MulOrder(4.0 * e, 4.0 * e', a);
    QuotientBounds(q, 4.0 * e', a);
    MulOrder(a - e', 0.0, e' - e);
    assert (a - (e' - e)) * (4.0 * e') == a * (4.0 * e) + 4.0 * ((a - e') * (e' - e));
    QuotientBounds(q, 4.0 * e', a - (e' - e));
  }

  // ---------------------------------------------------------------------------
  // Phases

  /** A phase takes as long as its slowest task. */
  lemma {:induction false} PhaseIsItsSlowest(phase: seq<TaskView>, now: real)
    requires Sized(phase)
    ensures forall k | 0 <= k < |phase| :: TaskRemaining(phase[k], now) <= PhaseRemaining(phase, now)
    ensures PhaseRemaining(phase, now) == 0.0
            || exists k :: 0 <= k < |phase| && TaskRemaining(phase[k], now) == PhaseRemaining(phase, now)
  {
    if phase != [] {
      var init, last := phase[..|phase| - 1], phase[|phase| - 1];
      PhaseIsItsSlowest(init, now);
      if k :| 0 <= k < |init| && TaskRemaining(init[k], now) == PhaseRemaining(init, now) {
        assert phase[k] == init[k];
      }
      assert phase[|phase| - 1] == last;
    }
  }

  /** Phases run one after another, so their times add up, however the plan is cut. */
  lemma {:induction false} PhasesAddUp(a: seq<seq<TaskView>>, b: seq<seq<TaskView>>, now: real)
    requires AllSized(a) && AllSized(b)
    ensures AllSized(a + b) && Remaining(a + b, now) == Remaining(a, now) + Remaining(b, now)
  {
    if b == [] {
      assert a + b == a;
    } else {
      var init := b[..|b| - 1];
      PhasesAddUp(a, init, now);
      assert (a + b)[..|a + b| - 1] == a + init;
    }
  }

  // ---------------------------------------------------------------------------
  // The run

  predicate IsRunning(t: TaskView) {
    !t.completed && !t.finishedItems && t.started.Some?
  }

  ghost predicate NothingRuns(phase: seq<TaskView>) {
    forall k | 0 <= k < |phase| :: !IsRunning(phase[k])
  }

  lemma {:induction false} PhaseFallsNoFasterThanTime(phase: seq<TaskView>, now: real, later: real)
    requires Sized(phase) && now <= later
    ensures PhaseRemaining(phase, later) <= PhaseRemaining(phase, now) <= PhaseRemaining(phase, later) + (later - now)
    ensures NothingRuns(phase) ==> PhaseRemaining(phase, later) == PhaseRemaining(phase, now)
  {
    if phase != [] {
      var t := phase[|phase| - 1];
      PhaseFallsNoFasterThanTime(phase[..|phase| - 1], now, later);
      if IsRunning(t) {
        ClockFallsNoFasterThanTime(Max(0.0, now - t.started.value), Max(0.0, later - t.started.value), t.expected);
      }
    }
  }

  /** While only one phase's tasks run and nothing happens, the ETA falls, never faster than the clock. */
  lemma {:induction false} EtaFallsNoFasterThanTime(phases: seq<seq<TaskView>>, current: nat, now: real, later: real)
    requires AllSized(phases) && now <= later
    requires forall k | 0 <= k < |phases| && k != current :: NothingRuns(phases[k])
    ensures Remaining(phases, later) <= Remaining(phases, now) <= Remaining(phases, later) + (later - now)
    ensures |phases| <= current ==> Remaining(phases, later) == Remaining(phases, now)
  {
    if phases != [] {
      EtaFallsNoFasterThanTime(phases[..|phases| - 1], current, now, later);
      PhaseFallsNoFasterThanTime(phases[|phases| - 1], now, later);
    }
  }

  /** How much faster or slower this run is than its seeds, from what completed so far. */
  function SpeedFactor(sumActual: real, sumExpected: real): (factor: real) {
    if sumExpected <= 0.0 then 1.0
    else
      var raw := Max(MIN_SPEED_FACTOR, Min(MAX_SPEED_FACTOR, sumActual / sumExpected));
      var confidence := Min(1.0, sumExpected / FULL_CALIBRATION_WORK);
      Blend(confidence, raw)
  }

  /** 1 + confidence * (raw - 1). */
  function Blend(confidence: real, raw: real): (factor: real) {
    1.0 + confidence * (raw - 1.0)
  }

  lemma BlendIsBetween(confidence: real, raw: real)
    requires 0.0 <= confidence <= 1.0
    ensures Min(1.0, raw) <= Blend(confidence, raw) <= Max(1.0, raw)
  {
    var k := if 1.0 <= raw then raw - 1.0 else 1.0 - raw;
    MulUnits(k);
    MulOrder(0.0, confidence, k);
    MulOrder(confidence, 1.0, k);
    if raw < 1.0 {
      assert confidence * (raw - 1.0) == -(confidence * k);
    }
  }

  /** The blended factor stays within the bounds of the raw one. */
  lemma SpeedFactorIsBounded(sumActual: real, sumExpected: real)
    ensures MIN_SPEED_FACTOR <= SpeedFactor(sumActual, sumExpected) <= MAX_SPEED_FACTOR
  {
    if 0.0 < sumExpected {
      var raw := Max(MIN_SPEED_FACTOR, Min(MAX_SPEED_FACTOR, sumActual / sumExpected));
      var c := Min(1.0, sumExpected / FULL_CALIBRATION_WORK);
      QuotientBounds(sumExpected, FULL_CALIBRATION_WORK, 0.0);
      BlendIsBetween(c, raw);
    }
  }

  /**
   * What completed is believed fully once it was expected to take two minutes, and not at
   * all before anything completed; in between the factor lies between 1 and the clamped ratio.
   */
  lemma SpeedFactorFollowsEvidence(sumActual: real, sumExpected: real)
    ensures sumExpected <= 0.0 ==> SpeedFactor(sumActual, sumExpected) == 1.0
    ensures 0.0 < sumExpected ==>
              var raw := Max(0.05, Min(20.0, sumActual / sumExpected));
              && Min(1.0, raw) <= SpeedFactor(sumActual, sumExpected) <= Max(1.0, raw)
              && (120.0 <= sumExpected ==> SpeedFactor(sumActual, sumExpected) == raw)
              && (SpeedFactor(sumActual, sumExpected) - 1.0) * 120.0 == Min(120.0, sumExpected) * (raw - 1.0)
  {
    if 0.0 < sumExpected {
      var raw := Max(0.05, Min(20.0, sumActual / sumExpected));
      var c := Min(1.0, sumExpected / FULL_CALIBRATION_WORK);
      QuotientBounds(sumExpected, FULL_CALIBRATION_WORK, 0.0);
      QuotientBounds(sumExpected, FULL_CALIBRATION_WORK, 1.0);
      BlendIsBetween(c, raw);
      MulUnits(raw - 1.0);
      assert c * 120.0 == Min(120.0, sumExpected);
      ScaledBlend(c, raw, 120.0);
    }
  }

  lemma ScaledBlend(c: real, raw: real, scale: real)
    ensures (Blend(c, raw) - 1.0) * scale == (c * scale) * (raw - 1.0)
  {
  }

  /** The share of the estimated total already behind the run. */
  function Percent(elapsed: real, eta: real): (p: real)
    requires 0.0 <= elapsed && 0.0 <= eta
    ensures 0.0 <= p <= 100.0
    ensures eta == 0.0 ==> p == 100.0
    ensures p * (elapsed + eta) == 100.0 * elapsed
  {
    if eta == 0.0 then 100.0
    else
      QuotientBounds(100.0 * elapsed, elapsed + eta, 100.0);
      QuotientBounds(100.0 * elapsed, elapsed + eta, 0.0);
      100.0 * elapsed / (elapsed + eta)
  }

  class Tracker {
    var reportedPercent: real

    constructor ()
      ensures reportedPercent == 0.0
    {
      reportedPercent := 0.0;
    }

    method RaisePercent(p: real) returns (reported: real)
      modifies this
      ensures reported == reportedPercent == Max(old(reportedPercent), p)
    {
      if reportedPercent < p {
        reportedPercent := p;
      }
      reported := reportedPercent;
    }

    /** The percentage never falls and stays a percentage, whatever the ETA does. */
    method Snapshot(phases: seq<seq<TaskView>>, elapsed: real, now: real)
      returns (percent: real, eta: real, known: bool)
      requires AllSized(phases) && 0.0 <= elapsed && 0.0 <= reportedPercent <= 100.0
      modifies this
      ensures old(reportedPercent) <= reportedPercent <= 100.0
      ensures phases != [] ==> percent == reportedPercent
      ensures known <==> phases != [] && Remaining(phases, now) <= MAX_REPORTABLE_ETA
      ensures known ==> 0.0 <= eta == Remaining(phases, now)
                        && percent == Max(old(reportedPercent), Percent(elapsed, eta))
      ensures !known ==> eta == 0.0 && reportedPercent == old(reportedPercent)
    {
      if |phases| == 0 {
        return 0.0, 0.0, false;
      }
      var left := RemainingSeconds(phases, now);
      RemainingNonNegative(phases, now);
      if MAX_REPORTABLE_ETA < left {
        percent := RaisePercent(0.0);
        return percent, 0.0, false;
      }
      percent := RaisePercent(Percent(elapsed, left));
      return percent, left, true;
    }
  }

  lemma {:induction false} RemainingNonNegative(phases: seq<seq<TaskView>>, now: real)
    requires AllSized(phases)
    ensures 0.0 <= Remaining(phases, now)
  {
    if phases != [] {
      RemainingNonNegative(phases[..|phases| - 1], now);
      PhaseNonNegative(phases[|phases| - 1], now);
    }
  }

  lemma {:induction false} PhaseNonNegative(phase: seq<TaskView>, now: real)
    requires Sized(phase)
    ensures 0.0 <= PhaseRemaining(phase, now)
  {
    if phase != [] {
      PhaseNonNegative(phase[..|phase| - 1], now);
    }
  }
}
