/** The stability score: a weighted instantaneous score folded into an average that drops
    fast and recovers slowly. The exponential is a parameter with the properties used. */
module Stability {

  ghost predicate ExpLike(exp: real -> real) {
    && exp(0.0) == 1.0
    && (forall x :: exp(x) > 0.0)
    && (forall x, y | x <= y :: exp(x) <= exp(y))
  }

  datatype Config = Config(
    wAvailability: real,
    wFailures: real,
    wDisconnect: real,
    wRecovery: real,
    wErrors: real,
    wLatency: real,
    wThroughput: real,
    alphaUp: real,
    alphaDown: real)
  {
    predicate Weighted() {
      && wAvailability >= 0.0 && wFailures >= 0.0 && wDisconnect >= 0.0 && wRecovery >= 0.0
      && wErrors >= 0.0 && wLatency >= 0.0 && wThroughput >= 0.0
    }

    predicate Smoothing() { 0.0 <= alphaUp <= 1.0 && 0.0 <= alphaDown <= 1.0 }
  }

  datatype Inputs = Inputs(
    recentAvailability: real,
    consecutiveFailures: nat,
    disconnectsInWindow: nat,
    lastRecoveryMs: real,
    errorCountDelta: nat,
    latencyP95Ms: real,
    latencyP50Ms: real,
    throughputVariance: real,
    workerDisappearancesObserved: nat,
    confirmedAbnormalWorkerExits: nat,
    confirmedOOMEvents: nat,
    rapidRestartEvents: nat)

  function Clamp01(x: real): (r: real)
    ensures 0.0 <= r <= 1.0
  {
    if x < 0.0 then 0.0 else if x > 1.0 then 1.0 else x
  }

  function Decay(exp: real -> real, rate: real, count: nat): real { exp(-rate * count as real) }

  function Penalty(exp: real -> real, rate: real, count: nat): real {
    if count > 0 then Decay(exp, rate, count) else 1.0
  }

  function Product(factors: seq<real>): real {
    if factors == [] then 1.0 else factors[0] * Product(factors[1..])
  }

  /** Probe failures, and worker exits only where there is evidence against them. */
  function FailFactors(exp: real -> real, i: Inputs): seq<real> {
    [Decay(exp, 0.7, i.consecutiveFailures),
     Penalty(exp, 0.6, i.confirmedAbnormalWorkerExits),
     Penalty(exp, 0.8, i.confirmedOOMEvents),
     Penalty(exp, 0.4, i.rapidRestartEvents)]
  }

  function RecoveryScore(exp: real -> real, ms: real): real { if ms > 0.0 then exp(-ms / 30000.0) else 1.0 }

  /** One when latency was not measured. */
  function LatencyRatio(i: Inputs): real {
    if i.latencyP50Ms > 0.0 && i.latencyP95Ms > 0.0 then i.latencyP95Ms / i.latencyP50Ms else 1.0
  }

  function LatencyScore(ratio: real): real { Clamp01(1.0 - (ratio - 1.0) / 9.0) }

  /** A negative variance means the probe is off. */
  function ThroughputScore(v: real): real { if v >= 0.0 then Clamp01(1.0 - v * 2.0) else 1.0 }

  function Components(exp: real -> real, i: Inputs): seq<real> {
    [Clamp01(i.recentAvailability),
     Product(FailFactors(exp, i)),
     Decay(exp, 0.5, i.disconnectsInWindow),
     RecoveryScore(exp, i.lastRecoveryMs),
     Decay(exp, 1.5, i.errorCountDelta),
     LatencyScore(LatencyRatio(i)),
     ThroughputScore(i.throughputVariance)]
  }

  function Weights(cfg: Config): seq<real> {
    [cfg.wAvailability, cfg.wFailures, cfg.wDisconnect, cfg.wRecovery, cfg.wErrors, cfg.wLatency, cfg.wThroughput]
  }

  function Dot(ws: seq<real>, xs: seq<real>): real
    requires |ws| == |xs|
  {
    if ws == [] then 0.0 else ws[0] * xs[0] + Dot(ws[1..], xs[1..])
  }

  function Instantaneous(cfg: Config, exp: real -> real, i: Inputs): (r: real)
    ensures 0.0 <= r <= 1.0
  {
    Clamp01(Dot(Weights(cfg), Components(exp, i)))
  }

  /** The fraction `a` of the way from `s` to `x`. */
  function Toward(a: real, s: real, x: real): real { a * x + (1.0 - a) * s }

  /** A step towards `x`, long if that is down and short if it is up. */
  function Smooth(cfg: Config, s: real, x: real): real {
    if x < s then Toward(cfg.alphaUp, s, x) else Toward(cfg.alphaDown, s, x)
  }

  /** The smoothed score after a run of instantaneous scores; the first one is taken as is. */
  function Fold(cfg: Config, xs: seq<real>): real {
    if xs == [] then 1.0
    else if |xs| == 1 then xs[0]
    else Smooth(cfg, Fold(cfg, xs[..|xs| - 1]), xs[|xs| - 1])
  }

  function Scores(cfg: Config, exp: real -> real, run: seq<Inputs>): seq<real> {
    seq(|run|, j requires 0 <= j < |run| => Instantaneous(cfg, exp, run[j]))
  }

  class StabilityCalc {
    const cfg: Config
    const exp: real -> real
    var smoothed: real
    var started: bool
    ghost var run: seq<Inputs>

    ghost predicate Valid()
      reads this
    {
      && started == (run != [])
      && smoothed == Fold(cfg, Scores(cfg, exp, run))
    }

    constructor (cfg: Config, exp: real -> real)
      ensures Valid() && run == [] && this.cfg == cfg && this.exp == exp
    {
      this.cfg, this.exp := cfg, exp;
      smoothed, started, run := 1.0, false, [];
    }

    method Update(i: Inputs) returns (score: real)
      requires Valid()
      modifies this
      ensures Valid() && run == old(run) + [i]
      ensures score == Clamp01(Fold(cfg, Scores(cfg, exp, run)))
      ensures cfg.Smoothing() ==> score == Fold(cfg, Scores(cfg, exp, run))
    {
      var inst := Instantaneous(cfg, exp, i);
      ScoreAfter(cfg, exp, run, i);
      if !started {
        smoothed := inst;
        started := true;
      } else if inst < smoothed {
        smoothed := Toward(cfg.alphaUp, smoothed, inst);
      } else {
        smoothed := Toward(cfg.alphaDown, smoothed, inst);
      }
      run := run + [i];
      score := Clamp01(smoothed);
    }
  }

  // ------------------------------------------------------------------------------------------
  // Whole runs

  lemma FoldSnoc(cfg: Config, xs: seq<real>, x: real)
    ensures Fold(cfg, xs + [x]) == if xs == [] then x else Smooth(cfg, Fold(cfg, xs), x)
  {
    assert (xs + [x])[..|xs|] == xs;
  }

  /** The gap left is the gap there was, times what is left of the weight. */
  lemma TowardGap(a: real, s: real, x: real)
    ensures x - Toward(a, s, x) == (1.0 - a) * (x - s)
    ensures Toward(a, s, x) - x == (1.0 - a) * (s - x)
  {}

  lemma Part(a: real, d: real)
    requires 0.0 <= a <= 1.0 && d >= 0.0
    ensures 0.0 <= a * d <= d
  {
    assert a * d <= 1.0 * d;
  }

  lemma TowardBetween(a: real, s: real, x: real)
    requires 0.0 <= a <= 1.0
    ensures x <= s ==> x <= Toward(a, s, x) <= s
    ensures s <= x ==> s <= Toward(a, s, x) <= x
  {
    TowardGap(a, s, x);
    if s <= x { Part(1.0 - a, x - s); } else { Part(1.0 - a, s - x); }
  }

  lemma TowardMonotone(a: real, s: real, t: real, x: real, y: real)
    requires 0.0 <= a <= 1.0 && s <= t && x <= y
    ensures Toward(a, s, x) <= Toward(a, t, y)
  {
    MixMonotone(a, 1.0 - a, s, t, x, y);
  }

  lemma MixMonotone(a: real, b: real, s: real, t: real, x: real, y: real)
    requires a >= 0.0 && b >= 0.0 && s <= t && x <= y
    ensures a * x + b * s <= a * y + b * t
  {
    Scale(a, x, y);
    Scale(b, s, t);
  }

  lemma Scale(a: real, x: real, y: real)
    requires a >= 0.0 && x <= y
    ensures a * x <= a * y
  {
    assert a * (y - x) >= 0.0;
  }

  lemma SmoothBetween(cfg: Config, s: real, x: real)
    requires cfg.Smoothing()
    ensures x <= s ==> x <= Smooth(cfg, s, x) <= s
    ensures s <= x ==> s <= Smooth(cfg, s, x) <= x
  {
    TowardBetween(if x < s then cfg.alphaUp else cfg.alphaDown, s, x);
  }

  lemma SmoothMonotone(cfg: Config, s: real, t: real, x: real, y: real)
    requires cfg.Smoothing() && s <= t && x <= y
    ensures Smooth(cfg, s, x) <= Smooth(cfg, t, y)
  {
    if x < s && y < t {
      TowardMonotone(cfg.alphaUp, s, t, x, y);
    } else if x >= s && y >= t {
      TowardMonotone(cfg.alphaDown, s, t, x, y);
    } else {
      SmoothBetween(cfg, s, x);
      SmoothBetween(cfg, t, y);
    }
  }

  lemma {:induction false} ScoreAfter(cfg: Config, exp: real -> real, run: seq<Inputs>, i: Inputs)
    ensures Fold(cfg, Scores(cfg, exp, run + [i])) ==
      if run == [] then Instantaneous(cfg, exp, i)
      else Smooth(cfg, Fold(cfg, Scores(cfg, exp, run)), Instantaneous(cfg, exp, i))
    ensures cfg.Smoothing() ==> 0.0 <= Fold(cfg, Scores(cfg, exp, run + [i])) <= 1.0
  {
    var xs, inst := Scores(cfg, exp, run), Instantaneous(cfg, exp, i);
    assert Scores(cfg, exp, run + [i]) == xs + [inst];
    FoldSnoc(cfg, xs, inst);
    if cfg.Smoothing() { FoldInRange(cfg, xs + [inst], 0.0, 1.0); }
  }

  /** The score never leaves the range of the instantaneous scores seen. */
  lemma {:induction false} FoldInRange(cfg: Config, xs: seq<real>, lo: real, hi: real)
    requires cfg.Smoothing() && xs != [] && forall j | 0 <= j < |xs| :: lo <= xs[j] <= hi
    ensures lo <= Fold(cfg, xs) <= hi
  {
    if |xs| > 1 {
      FoldInRange(cfg, xs[..|xs| - 1], lo, hi);
      SmoothBetween(cfg, Fold(cfg, xs[..|xs| - 1]), xs[|xs| - 1]);
    }
  }

  lemma {:induction false} FoldMonotone(cfg: Config, xs: seq<real>, ys: seq<real>)
    requires cfg.Smoothing() && |xs| == |ys| && forall j | 0 <= j < |xs| :: xs[j] <= ys[j]
    ensures Fold(cfg, xs) <= Fold(cfg, ys)
  {
    if |xs| > 1 {
      var n := |xs| - 1;
      FoldMonotone(cfg, xs[..n], ys[..n]);
      SmoothMonotone(cfg, Fold(cfg, xs[..n]), Fold(cfg, ys[..n]), xs[n], ys[n]);
    }
  }

  function Pow(b: real, k: nat): real { if k == 0 then 1.0 else b * Pow(b, k - 1) }

  function Steady(c: real, k: nat): seq<real> { seq(k, _ => c) }

  lemma {:induction false} PowInUnit(b: real, k: nat)
    requires 0.0 <= b <= 1.0
    ensures 0.0 <= Pow(b, k) <= 1.0
  {
    if k > 0 {
      PowInUnit(b, k - 1);
      Part(b, Pow(b, k - 1));
    }
  }

  /** `k` probes at level `c`, starting from score `s`. */
  function Settle(cfg: Config, s: real, c: real, k: nat): real {
    if k == 0 then s else Smooth(cfg, Settle(cfg, s, c, k - 1), c)
  }

  lemma {:induction false} SteadyRun(cfg: Config, xs: seq<real>, c: real, k: nat)
    requires xs != []
    ensures Fold(cfg, xs + Steady(c, k)) == Settle(cfg, Fold(cfg, xs), c, k)
  {
    if k == 0 {
      assert xs + Steady(c, 0) == xs;
    } else {
      SteadyRun(cfg, xs, c, k - 1);
      assert xs + Steady(c, k) == (xs + Steady(c, k - 1)) + [c];
      FoldSnoc(cfg, xs + Steady(c, k - 1), c);
    }
  }

  /** Recovery towards a steady level closes the gap by the slow factor per probe. */
  lemma RecoveryIsGeometric(cfg: Config, s: real, c: real, k: nat)
    requires cfg.Smoothing() && c >= s
    ensures c - Settle(cfg, s, c, k) == Pow(1.0 - cfg.alphaDown, k) * (c - s)
  {
    RisesBy(cfg, 1.0 - cfg.alphaDown, s, c, k);
  }

  lemma {:induction false} RisesBy(cfg: Config, b: real, s: real, c: real, k: nat)
    requires c >= s && 0.0 <= b <= 1.0 && b == 1.0 - cfg.alphaDown
    ensures c - Settle(cfg, s, c, k) == Pow(b, k) * (c - s)
  {
    if k > 0 {
      var before, p := Settle(cfg, s, c, k - 1), Pow(b, k - 1);
      RisesBy(cfg, b, s, c, k - 1);
      PowInUnit(b, k - 1);
      GapShrinks(b, p, c - s, c - before);
      TowardGap(cfg.alphaDown, before, c);
    }
  }

  /** A drop to a steady level closes the gap by the fast factor per probe. */
  lemma DropIsGeometric(cfg: Config, s: real, c: real, k: nat)
    requires cfg.Smoothing() && c <= s
    ensures Settle(cfg, s, c, k) - c == Pow(1.0 - cfg.alphaUp, k) * (s - c)
  {
    FallsBy(cfg, 1.0 - cfg.alphaUp, s, c, k);
  }

  lemma {:induction false} FallsBy(cfg: Config, b: real, s: real, c: real, k: nat)
    requires c <= s && 0.0 <= b <= 1.0 && b == 1.0 - cfg.alphaUp
    ensures Settle(cfg, s, c, k) - c == Pow(b, k) * (s - c)
  {
    if k > 0 {
      var before, p := Settle(cfg, s, c, k - 1), Pow(b, k - 1);
      FallsBy(cfg, b, s, c, k - 1);
      PowInUnit(b, k - 1);
      GapShrinks(b, p, s - c, before - c);
      DropStep(cfg, before, c);
    }
  }

  lemma DropStep(cfg: Config, s: real, c: real)
    requires s >= c
    ensures Smooth(cfg, s, c) - c == (1.0 - cfg.alphaUp) * (s - c)
  {
    TowardGap(cfg.alphaUp, s, c);
    TowardGap(cfg.alphaDown, s, c);
  }

  /** One more factor on a non-negative gap. */
  lemma GapShrinks(b: real, q: real, gap0: real, gap: real)
    requires q >= 0.0 && gap0 >= 0.0 && gap == q * gap0
    ensures gap >= 0.0 && b * gap == (b * q) * gap0
  {}

  // ------------------------------------------------------------------------------------------
  // Worse inputs, lower scores

  /** Signal by signal no better. Unmeasured latency counts as steady, a probe that is off as
      variance zero, no recovery as an instant one. */
  predicate NoBetter(a: Inputs, b: Inputs) {
    && a.recentAvailability <= b.recentAvailability
    && a.consecutiveFailures >= b.consecutiveFailures
    && a.disconnectsInWindow >= b.disconnectsInWindow
    && (b.lastRecoveryMs > 0.0 ==> a.lastRecoveryMs >= b.lastRecoveryMs)
    && a.errorCountDelta >= b.errorCountDelta
    && LatencyRatio(a) >= LatencyRatio(b)
    && (b.throughputVariance > 0.0 ==> a.throughputVariance >= b.throughputVariance)
    && a.confirmedAbnormalWorkerExits >= b.confirmedAbnormalWorkerExits
    && a.confirmedOOMEvents >= b.confirmedOOMEvents
    && a.rapidRestartEvents >= b.rapidRestartEvents
  }

  lemma DecayFalls(exp: real -> real, rate: real, n: nat, m: nat)
    requires ExpLike(exp) && rate >= 0.0 && n <= m
    ensures 0.0 <= Decay(exp, rate, m) <= Decay(exp, rate, n) <= 1.0
    ensures 0.0 <= Penalty(exp, rate, m) <= Penalty(exp, rate, n) <= 1.0
  {
    assert -rate * m as real <= -rate * n as real <= 0.0;
    assert exp(-rate * n as real) <= exp(0.0);
  }

  ghost predicate Below(xs: seq<real>, ys: seq<real>) {
    |xs| == |ys| && forall j | 0 <= j < |xs| :: xs[j] <= ys[j]
  }

  lemma {:induction false} ProductFalls(xs: seq<real>, ys: seq<real>)
    requires Below(xs, ys) && forall j | 0 <= j < |xs| :: xs[j] >= 0.0
    ensures 0.0 <= Product(xs) <= Product(ys)
  {
    if xs != [] {
      ProductFalls(xs[1..], ys[1..]);
      TimesMonotone(xs[0], ys[0], Product(xs[1..]), Product(ys[1..]));
    }
  }

  lemma TimesMonotone(a: real, b: real, c: real, d: real)
    requires 0.0 <= a <= b && 0.0 <= c <= d
    ensures 0.0 <= a * c <= b * d
  {
    Scale(c, a, b);
    Scale(b, c, d);
  }

  lemma {:induction false} DotFalls(ws: seq<real>, xs: seq<real>, ys: seq<real>)
    requires |ws| == |xs| && Below(xs, ys) && forall j | 0 <= j < |ws| :: ws[j] >= 0.0
    ensures Dot(ws, xs) <= Dot(ws, ys)
  {
    if ws != [] {
      DotFalls(ws[1..], xs[1..], ys[1..]);
      Scale(ws[0], xs[0], ys[0]);
    }
  }

  lemma FailScoreFalls(exp: real -> real, a: Inputs, b: Inputs)
    requires ExpLike(exp) && NoBetter(a, b)
    ensures Product(FailFactors(exp, a)) <= Product(FailFactors(exp, b))
  {
    DecayFalls(exp, 0.7, b.consecutiveFailures, a.consecutiveFailures);
    DecayFalls(exp, 0.6, b.confirmedAbnormalWorkerExits, a.confirmedAbnormalWorkerExits);
    DecayFalls(exp, 0.8, b.confirmedOOMEvents, a.confirmedOOMEvents);
    DecayFalls(exp, 0.4, b.rapidRestartEvents, a.rapidRestartEvents);
    ProductFalls(FailFactors(exp, a), FailFactors(exp, b));
  }

  lemma RecoveryFalls(exp: real -> real, a: Inputs, b: Inputs)
    requires ExpLike(exp) && NoBetter(a, b)
    ensures RecoveryScore(exp, a.lastRecoveryMs) <= RecoveryScore(exp, b.lastRecoveryMs)
  {
    if a.lastRecoveryMs > 0.0 { assert exp(-a.lastRecoveryMs / 30000.0) <= exp(0.0); }
  }

  lemma {:induction false} InstantaneousFalls(cfg: Config, exp: real -> real, a: Inputs, b: Inputs)
    requires cfg.Weighted() && ExpLike(exp) && NoBetter(a, b)
    ensures Instantaneous(cfg, exp, a) <= Instantaneous(cfg, exp, b)
  {
    FailScoreFalls(exp, a, b);
    RecoveryFalls(exp, a, b);
    DecayFalls(exp, 0.5, b.disconnectsInWindow, a.disconnectsInWindow);
    DecayFalls(exp, 1.5, b.errorCountDelta, a.errorCountDelta);
    assert ThroughputScore(a.throughputVariance) <= ThroughputScore(b.throughputVariance);
    assert LatencyScore(LatencyRatio(a)) <= LatencyScore(LatencyRatio(b));
    DotFalls(Weights(cfg), Components(exp, a), Components(exp, b));
  }

  // ------------------------------------------------------------------------------------------
  // What the score is worth

  /** Nothing wrong and nothing measured that could be. */
  const PERFECT := Inputs(1.0, 0, 0, 0.0, 0, 0.0, 0.0, -1.0, 0, 0, 0, 0)

  function Sum(ws: seq<real>): real { if ws == [] then 0.0 else ws[0] + Sum(ws[1..]) }

  ghost predicate OneBut(xs: seq<real>, j: nat) { forall i | 0 <= i < |xs| && i != j :: xs[i] == 1.0 }

  lemma {:induction false} DotOfOnes(ws: seq<real>, xs: seq<real>)
    requires |ws| == |xs| && forall i | 0 <= i < |xs| :: xs[i] == 1.0
    ensures Dot(ws, xs) == Sum(ws)
  {
    if ws != [] { DotOfOnes(ws[1..], xs[1..]); }
  }

  lemma {:induction false} DotOneOff(ws: seq<real>, xs: seq<real>, j: nat)
    requires |ws| == |xs| && j < |xs| && OneBut(xs, j)
    ensures Dot(ws, xs) == Sum(ws) - ws[j] * (1.0 - xs[j])
  {
    if j == 0 {
      DotOfOnes(ws[1..], xs[1..]);
    } else {
      DotOneOff(ws[1..], xs[1..], j - 1);
    }
  }

  lemma {:induction false} ShareOfSum(ws: seq<real>, j: nat)
    requires j < |ws| && forall i | 0 <= i < |ws| :: ws[i] >= 0.0
    ensures 0.0 <= ws[j] <= Sum(ws)
  {
    if j == 0 { SumNonNegative(ws[1..]); } else { ShareOfSum(ws[1..], j - 1); }
  }

  lemma {:induction false} SumNonNegative(ws: seq<real>)
    requires forall i | 0 <= i < |ws| :: ws[i] >= 0.0
    ensures Sum(ws) >= 0.0
  {
    if ws != [] { SumNonNegative(ws[1..]); }
  }

  lemma {:induction false} ProductOneOff(xs: seq<real>, j: nat)
    requires j < |xs| && OneBut(xs, j)
    ensures Product(xs) == xs[j]
  {
    if j == 0 { ProductOfOnes(xs[1..]); } else { ProductOneOff(xs[1..], j - 1); }
  }

  lemma {:induction false} ProductOfOnes(xs: seq<real>)
    requires forall i | 0 <= i < |xs| :: xs[i] == 1.0
    ensures Product(xs) == 1.0
  {
    if xs != [] { ProductOfOnes(xs[1..]); }
  }

  /** Weights that share out the whole score. */
  ghost predicate Normalised(cfg: Config) { cfg.Weighted() && Sum(Weights(cfg)) == 1.0 }

  const ONES: seq<real> := [1.0, 1.0, 1.0, 1.0, 1.0, 1.0, 1.0]

  /** A score whose components are all one but the j-th misses that one's share. */
  lemma OneComponentOff(cfg: Config, exp: real -> real, i: Inputs, j: nat, x: real)
    requires Normalised(cfg) && j < 7 && 0.0 <= x <= 1.0 && Components(exp, i) == ONES[j := x]
    ensures Instantaneous(cfg, exp, i) == 1.0 - Weights(cfg)[j] * (1.0 - x)
  {
    OnesBut(j, x);
    MissesShare(Weights(cfg), ONES[j := x], j);
  }

  lemma OnesBut(j: nat, x: real)
    requires j < 7
    ensures |ONES| == 7 && OneBut(ONES[j := x], j) && ONES[j := x][j] == x
  {}

  lemma MissesShare(ws: seq<real>, xs: seq<real>, j: nat)
    requires |ws| == |xs| && j < |xs| && OneBut(xs, j) && 0.0 <= xs[j] <= 1.0
    requires Sum(ws) == 1.0 && forall i | 0 <= i < |ws| :: ws[i] >= 0.0
    ensures Clamp01(Dot(ws, xs)) == 1.0 - ws[j] * (1.0 - xs[j])
  {
    DotOneOff(ws, xs, j);
    ShareOfSum(ws, j);
    ShareKept(ws[j], xs[j]);
  }

  lemma ShareKept(w: real, x: real)
    requires 0.0 <= w <= 1.0 && 0.0 <= x <= 1.0
    ensures Clamp01(1.0 - w * (1.0 - x)) == 1.0 - w * (1.0 - x)
  {
    Part(w, 1.0 - x);
  }

  lemma NoFailures(exp: real -> real, i: Inputs)
    requires ExpLike(exp) && i.consecutiveFailures == i.confirmedAbnormalWorkerExits == 0
    requires i.confirmedOOMEvents == i.rapidRestartEvents == 0
    ensures Product(FailFactors(exp, i)) == 1.0 && Decay(exp, 0.5, 0) == Decay(exp, 1.5, 0) == 1.0
  {
    assert -0.7 * 0 as real == 0.0 && -0.5 * 0 as real == 0.0 && -1.5 * 0 as real == 0.0;
    ProductOfOnes(FailFactors(exp, i));
  }

  /** Perfect inputs score one. */
  lemma PerfectScore(cfg: Config, exp: real -> real)
    requires Normalised(cfg) && ExpLike(exp)
    ensures Instantaneous(cfg, exp, PERFECT) == 1.0
  {
    NoFailures(exp, PERFECT);
    assert Components(exp, PERFECT) == ONES[0 := 1.0];
    OneComponentOff(cfg, exp, PERFECT, 0, 1.0);
  }

  lemma DecayInUnit(exp: real -> real, rate: real, n: nat)
    requires ExpLike(exp) && rate >= 0.0
    ensures 0.0 <= Decay(exp, rate, n) <= 1.0
  {
    DecayFalls(exp, rate, 0, n);
  }

  /** Inputs perfect in everything but failures and worker exits. */
  predicate OnlyFailures(i: Inputs) {
    i == PERFECT.(consecutiveFailures := i.consecutiveFailures, rapidRestartEvents := i.rapidRestartEvents,
                  confirmedAbnormalWorkerExits := i.confirmedAbnormalWorkerExits,
                  confirmedOOMEvents := i.confirmedOOMEvents)
  }

  lemma OnlyFailScoreOff(exp: real -> real, i: Inputs)
    requires ExpLike(exp) && OnlyFailures(i)
    ensures Components(exp, i) == ONES[1 := Product(FailFactors(exp, i))]
  {
    NoFailures(exp, PERFECT);
  }

  lemma FailFactorOff(cfg: Config, exp: real -> real, i: Inputs, j: nat, x: real)
    requires Normalised(cfg) && ExpLike(exp) && j < 4 && 0.0 <= x <= 1.0 && OnlyFailures(i)
    requires FailFactors(exp, i) == [1.0, 1.0, 1.0, 1.0][j := x]
    ensures Instantaneous(cfg, exp, i) == 1.0 - cfg.wFailures * (1.0 - x)
  {
    FactorOff(j, x);
    OnlyFailScoreOff(exp, i);
    OneComponentOff(cfg, exp, i, 1, x);
  }

  lemma FactorOff(j: nat, x: real)
    requires j < 4
    ensures Product([1.0, 1.0, 1.0, 1.0][j := x]) == x
  {
    ProductOneOff([1.0, 1.0, 1.0, 1.0][j := x], j);
  }

  /** What `n` probe failures take off alone. */
  lemma {:induction false} FailuresAlone(cfg: Config, exp: real -> real, n: nat)
    requires Normalised(cfg) && ExpLike(exp)
    ensures Instantaneous(cfg, exp, PERFECT.(consecutiveFailures := n))
            == 1.0 - cfg.wFailures * (1.0 - exp(-0.7 * n as real))
  {
    DecayInUnit(exp, 0.7, n);
    FailFactorOff(cfg, exp, PERFECT.(consecutiveFailures := n), 0, Decay(exp, 0.7, n));
  }

  /** What `n` worker exits known to be abnormal take off alone. */
  lemma AbnormalExitsAlone(cfg: Config, exp: real -> real, n: nat)
    requires Normalised(cfg) && ExpLike(exp) && n > 0
    ensures Instantaneous(cfg, exp, PERFECT.(confirmedAbnormalWorkerExits := n))
            == 1.0 - cfg.wFailures * (1.0 - exp(-0.6 * n as real))
  {
    var i := PERFECT.(confirmedAbnormalWorkerExits := n);
    DecayInUnit(exp, 0.6, n);
    assert Decay(exp, 0.7, 0) == 1.0 by { assert -0.7 * 0 as real == 0.0; }
    assert FailFactors(exp, i) == [1.0, 1.0, 1.0, 1.0][1 := Decay(exp, 0.6, n)];
    FailFactorOff(cfg, exp, i, 1, Decay(exp, 0.6, n));
  }

  /** The same for exits known to be for lack of memory. */
  lemma OutOfMemoryAlone(cfg: Config, exp: real -> real, n: nat)
    requires Normalised(cfg) && ExpLike(exp) && n > 0
    ensures Instantaneous(cfg, exp, PERFECT.(confirmedOOMEvents := n))
            == 1.0 - cfg.wFailures * (1.0 - exp(-0.8 * n as real))
  {
    var i := PERFECT.(confirmedOOMEvents := n);
    DecayInUnit(exp, 0.8, n);
    assert Decay(exp, 0.7, 0) == 1.0 by { assert -0.7 * 0 as real == 0.0; }
    assert FailFactors(exp, i) == [1.0, 1.0, 1.0, 1.0][2 := Decay(exp, 0.8, n)];
    FailFactorOff(cfg, exp, i, 2, Decay(exp, 0.8, n));
  }

  /** The same for rapid restarts. */
  lemma RapidRestartsAlone(cfg: Config, exp: real -> real, n: nat)
    requires Normalised(cfg) && ExpLike(exp) && n > 0
    ensures Instantaneous(cfg, exp, PERFECT.(rapidRestartEvents := n))
            == 1.0 - cfg.wFailures * (1.0 - exp(-0.4 * n as real))
  {
    var i := PERFECT.(rapidRestartEvents := n);
    DecayInUnit(exp, 0.4, n);
    assert Decay(exp, 0.7, 0) == 1.0 by { assert -0.7 * 0 as real == 0.0; }
    assert FailFactors(exp, i) == [1.0, 1.0, 1.0, 1.0][3 := Decay(exp, 0.4, n)];
    FailFactorOff(cfg, exp, i, 3, Decay(exp, 0.4, n));
  }

  /** What `n` disconnects in the window or `n` new errors take off alone. */
  lemma {:induction false} CountsAlone(cfg: Config, exp: real -> real, n: nat)
    requires Normalised(cfg) && ExpLike(exp)
    ensures Instantaneous(cfg, exp, PERFECT.(disconnectsInWindow := n))
            == 1.0 - cfg.wDisconnect * (1.0 - exp(-0.5 * n as real))
    ensures Instantaneous(cfg, exp, PERFECT.(errorCountDelta := n))
            == 1.0 - cfg.wErrors * (1.0 - exp(-1.5 * n as real))
  {
    var i, j := PERFECT.(disconnectsInWindow := n), PERFECT.(errorCountDelta := n);
    NoFailures(exp, i);
    NoFailures(exp, j);
    DecayInUnit(exp, 0.5, n);
    DecayInUnit(exp, 1.5, n);
    assert Components(exp, i) == ONES[2 := Decay(exp, 0.5, n)];
    assert Components(exp, j) == ONES[4 := Decay(exp, 1.5, n)];
    OneComponentOff(cfg, exp, i, 2, Decay(exp, 0.5, n));
    OneComponentOff(cfg, exp, j, 4, Decay(exp, 1.5, n));
  }

  /** What a share of failed probes takes off alone. */
  lemma AvailabilityAlone(cfg: Config, exp: real -> real, x: real)
    requires Normalised(cfg) && ExpLike(exp) && 0.0 <= x <= 1.0
    ensures Instantaneous(cfg, exp, PERFECT.(recentAvailability := x)) == 1.0 - cfg.wAvailability * (1.0 - x)
  {
    var i := PERFECT.(recentAvailability := x);
    NoFailures(exp, i);
    assert Components(exp, i) == ONES[0 := x];
    OneComponentOff(cfg, exp, i, 0, x);
  }

  /** What a latency tail or an uneven throughput takes off alone; a tail ten times the median,
      or a variation of a half, takes all there is. */
  lemma UnevennessAlone(cfg: Config, exp: real -> real, x: real)
    requires Normalised(cfg) && ExpLike(exp) && 0.0 <= x <= 1.0
    ensures Instantaneous(cfg, exp, PERFECT.(latencyP50Ms := 1.0, latencyP95Ms := 1.0 + 9.0 * x))
            == 1.0 - cfg.wLatency * x
    ensures Instantaneous(cfg, exp, PERFECT.(throughputVariance := x / 2.0)) == 1.0 - cfg.wThroughput * x
  {
    var i, j := PERFECT.(latencyP50Ms := 1.0, latencyP95Ms := 1.0 + 9.0 * x), PERFECT.(throughputVariance := x / 2.0);
    NoFailures(exp, i);
    NoFailures(exp, j);
    assert LatencyRatio(i) == 1.0 + 9.0 * x;
    assert Components(exp, i) == ONES[5 := 1.0 - x];
    assert Components(exp, j) == ONES[6 := 1.0 - x];
    OneComponentOff(cfg, exp, i, 5, 1.0 - x);
    OneComponentOff(cfg, exp, j, 6, 1.0 - x);
  }

  /** What a recovery that took a while takes off alone. */
  lemma RecoveryAlone(cfg: Config, exp: real -> real, ms: real)
    requires Normalised(cfg) && ExpLike(exp) && ms > 0.0
    ensures Instantaneous(cfg, exp, PERFECT.(lastRecoveryMs := ms))
            == 1.0 - cfg.wRecovery * (1.0 - exp(-ms / 30000.0))
  {
    var i := PERFECT.(lastRecoveryMs := ms);
    NoFailures(exp, i);
    assert exp(-ms / 30000.0) <= exp(0.0);
    assert Components(exp, i) == ONES[3 := exp(-ms / 30000.0)];
    OneComponentOff(cfg, exp, i, 3, exp(-ms / 30000.0));
  }

  /** A run that is never better, probe by probe, never ends with a higher score. */
  lemma {:induction false} WorseRunScoresNoHigher(cfg: Config, exp: real -> real,
                                                  worse: seq<Inputs>, better: seq<Inputs>)
    requires cfg.Smoothing() && cfg.Weighted() && ExpLike(exp)
    requires |worse| == |better| && forall j | 0 <= j < |worse| :: NoBetter(worse[j], better[j])
    ensures Fold(cfg, Scores(cfg, exp, worse)) <= Fold(cfg, Scores(cfg, exp, better))
  {
    forall j | 0 <= j < |worse| ensures Scores(cfg, exp, worse)[j] <= Scores(cfg, exp, better)[j] {
      InstantaneousFalls(cfg, exp, worse[j], better[j]);
    }
    FoldMonotone(cfg, Scores(cfg, exp, worse), Scores(cfg, exp, better));
  }

  /** Disappearances of unknown cause are neutral. */
  lemma {:induction false} DisappearancesAreNeutral(cfg: Config, exp: real -> real, a: seq<Inputs>, b: seq<Inputs>)
    requires |a| == |b|
    requires forall j | 0 <= j < |a| :: a[j] == b[j].(workerDisappearancesObserved := a[j].workerDisappearancesObserved)
    ensures Fold(cfg, Scores(cfg, exp, a)) == Fold(cfg, Scores(cfg, exp, b))
  {
    forall j | 0 <= j < |a| ensures Scores(cfg, exp, a)[j] == Scores(cfg, exp, b)[j] {
      assert Components(exp, a[j]) == Components(exp, b[j]);
    }
    assert Scores(cfg, exp, a) == Scores(cfg, exp, b);
  }
}
