/** Reliability figures over the probes still in the ring and inside the window. */
module ProbeHistory {
  import opened Sequences
  import Ring
  import Sorting

  datatype Probe = Probe(mono: int, ok: bool, latency: real)

  predicate InWindow(cutoff: int, p: Probe) { p.mono >= cutoff }

  predicate OkInWindow(cutoff: int, p: Probe) { p.mono >= cutoff && p.ok }

  function OkLatencies(items: seq<Probe>, cutoff: int): seq<real> {
    if items == [] then []
    else
      var front, last := items[..|items| - 1], items[|items| - 1];
      OkLatencies(front, cutoff) + if OkInWindow(cutoff, last) then [last.latency] else []
  }

  /** The list holds each good latency in the window, as often as it was measured. */
  lemma {:induction false} LatencyOccurs(items: seq<Probe>, cutoff: int, x: real)
    ensures multiset(OkLatencies(items, cutoff))[x]
            == Count(items, (p: Probe) => p.mono >= cutoff && p.ok && p.latency == x)
  {
    if items != [] { LatencyOccurs(items[..|items| - 1], cutoff, x); }
  }

  function FailureRun(probes: seq<Probe>): nat {
    if probes == [] || probes[|probes| - 1].ok then 0 else FailureRun(probes[..|probes| - 1]) + 1
  }

  ghost predicate LastAllFailed(probes: seq<Probe>, n: nat) {
    n <= |probes| && forall i | |probes| - n <= i < |probes| :: !probes[i].ok
  }

  /** The run is at least `n` exactly when the last `n` probes all failed. */
  lemma {:induction false} FailureRunIsSuffix(probes: seq<Probe>, n: nat)
    ensures LastAllFailed(probes, n) <==> n <= FailureRun(probes)
  {
    if n > 0 && probes != [] {
      var front := probes[..|probes| - 1];
      FailureRunIsSuffix(front, n - 1);
      assert forall i | 0 <= i < |front| :: front[i] == probes[i];
    }
  }

  predicate LeReal(a: real, b: real) { a <= b }

  // ------------------------------------------------------------------------------------------
  // Interpolated percentiles

  function Lerp(x: real, y: real, f: real): real { x + f * (y - x) }

  lemma LerpBetween(x: real, y: real, f: real, g: real)
    requires x <= y && 0.0 <= f <= g <= 1.0
    ensures x <= Lerp(x, y, f) <= Lerp(x, y, g) <= y
  {
    var d := y - x;
    assert 0.0 <= f * d;
    assert f * d <= g * d;
    assert g * d <= 1.0 * d;
  }

  /** The fractional rank of the p-th percentile among `n` samples. */
  function Rank(p: real, n: nat): real { (p / 100.0) * (n - 1) as real }

  lemma RankMonotone(p: real, q: real, n: nat)
    requires 0.0 <= p <= q && n > 0
    ensures 0.0 <= Rank(p, n) <= Rank(q, n)
  {
    var a, b, m := p / 100.0, q / 100.0, (n - 1) as real;
    assert 0.0 <= a <= b && m >= 0.0;
    assert 0.0 <= a * m;
    assert a * m <= b * m;
  }

  function Percentile(sorted: seq<real>, p: real): real
    requires p >= 0.0
  {
    if sorted == [] then 0.0
    else if |sorted| == 1 then sorted[0]
    else
      RankMonotone(p, p, |sorted|);
      Interpolate(sorted, Rank(p, |sorted|))
  }

  /** The value at a fractional rank; ranks past the end give the last sample. */
  function Interpolate(sorted: seq<real>, rank: real): real
    requires sorted != [] && rank >= 0.0
  {
    var lo := rank.Floor;
    if lo >= |sorted| - 1 then sorted[|sorted| - 1]
    else Lerp(sorted[lo], sorted[lo + 1], rank - lo as real)
  }

  lemma SortedAt(s: seq<real>, i: nat, j: nat)
    requires Sorting.Sorted(s, LeReal) && i <= j < |s|
    ensures s[i] <= s[j]
  {
    if i < j { assert LeReal(s[i], s[j]); }
  }

  /** A rank's value lies between the samples on either side of it. */
  lemma InterpolateBetween(s: seq<real>, rank: real)
    requires s != [] && rank >= 0.0 && Sorting.Sorted(s, LeReal)
    ensures s[0] <= Interpolate(s, rank) <= s[|s| - 1]
    ensures rank.Floor < |s| - 1 ==> s[rank.Floor] <= Interpolate(s, rank) <= s[rank.Floor + 1]
  {
    var lo := rank.Floor;
    if lo < |s| - 1 {
      SortedAt(s, lo, lo + 1);
      LerpBetween(s[lo], s[lo + 1], rank - lo as real, rank - lo as real);
      SortedAt(s, 0, lo);
      SortedAt(s, lo + 1, |s| - 1);
    } else {
      SortedAt(s, 0, |s| - 1);
    }
  }

  lemma InterpolateMonotone(s: seq<real>, a: real, b: real)
    requires s != [] && 0.0 <= a <= b && Sorting.Sorted(s, LeReal)
    ensures Interpolate(s, a) <= Interpolate(s, b)
  {
    InterpolateBetween(s, a);
    InterpolateBetween(s, b);
    var i, j := a.Floor, b.Floor;
    if j < |s| - 1 {
      SortedAt(s, i, i + 1);
      if i == j {
        LerpBetween(s[i], s[i + 1], a - i as real, b - i as real);
      } else {
        SortedAt(s, i + 1, j);
      }
    }
  }

  /** Percentiles grow with p and stay within the samples. */
  lemma {:induction false} PercentileMonotone(s: seq<real>, p: real, q: real)
    requires s != [] && 0.0 <= p <= q && Sorting.Sorted(s, LeReal)
    ensures s[0] <= Percentile(s, p) <= Percentile(s, q) <= s[|s| - 1]
  {
    RankMonotone(p, q, |s|);
    InterpolateMonotone(s, Rank(p, |s|), Rank(q, |s|));
    InterpolateBetween(s, Rank(p, |s|));
    InterpolateBetween(s, Rank(q, |s|));
  }

  /** The percentile that falls on the i-th sample and a fraction `f` of the way to the next. */
  lemma PercentileAt(s: seq<real>, p: real, i: nat, f: real)
    requires i < |s| && 0.0 <= f < 1.0 && (f > 0.0 ==> i + 1 < |s|)
    requires p >= 0.0 && p * (|s| - 1) as real == 100.0 * (i as real + f) && (|s| == 1 ==> i == 0)
    ensures Percentile(s, p) == if f == 0.0 then s[i] else (1.0 - f) * s[i] + f * s[i + 1]
  {
    if |s| > 1 {
      RankIs(p, |s|, i as real + f);
      InterpolateAt(s, i, f);
    }
  }

  lemma InterpolateAt(s: seq<real>, i: nat, f: real)
    requires i < |s| && 0.0 <= f < 1.0 && (f > 0.0 ==> i + 1 < |s|)
    ensures Interpolate(s, i as real + f) == if f == 0.0 then s[i] else (1.0 - f) * s[i] + f * s[i + 1]
  {
    var rank := i as real + f;
    assert rank.Floor == i && rank - i as real == f;
    if i + 1 < |s| {
      assert Interpolate(s, rank) == Lerp(s[i], s[i + 1], f);
      Mix(s[i], s[i + 1], f);
    }
  }

  lemma RankIs(p: real, n: nat, x: real)
    requires n > 0 && p * (n - 1) as real == 100.0 * x
    ensures Rank(p, n) == x
  {
    var m := (n - 1) as real;
    assert (p / 100.0) * m * 100.0 == p * m;
  }

  lemma Mix(x: real, y: real, f: real)
    ensures Lerp(x, y, f) == (1.0 - f) * x + f * y
    ensures f == 0.0 ==> Lerp(x, y, f) == x
  {}

  /** The least sample is the zeroth percentile, the greatest the hundredth. */
  lemma Extremes(s: seq<real>)
    requires s != []
    ensures Percentile(s, 0.0) == s[0] && Percentile(s, 100.0) == s[|s| - 1]
  {
    PercentileAt(s, 0.0, 0, 0.0);
    PercentileAt(s, 100.0, |s| - 1, 0.0);
  }

  // ------------------------------------------------------------------------------------------
  // What the figures mean

  function Ratio(part: nat, whole: nat): real
    requires whole > 0
  {
    part as real / whole as real
  }

  lemma RatiosSumToOne(part: nat, whole: nat)
    requires part <= whole && whole > 0
    ensures Ratio(part, whole) + Ratio(whole - part, whole) == 1.0
  {
    var a, t := part as real, whole as real;
    assert (whole - part) as real == t - a;
    SharesSum(a / t, (t - a) / t, a, t);
  }

  lemma SharesSum(x: real, y: real, a: real, t: real)
    requires t > 0.0 && x * t == a && y * t == t - a
    ensures x + y == 1.0
  {
    Cancel(x + y, t);
  }

  lemma Cancel(z: real, t: real)
    requires t > 0.0
    ensures z * t == t ==> z == 1.0
  {
    assert (z - 1.0) * t == z * t - t;
    if z - 1.0 > 0.0 { assert (z - 1.0) * t > 0.0; }
    if 1.0 - z > 0.0 { assert (1.0 - z) * t > 0.0; }
  }

  function Total(kept: seq<Probe>, cutoff: int): nat { Count(kept, p => InWindow(cutoff, p)) }

  function OkCount(kept: seq<Probe>, cutoff: int): nat { Count(kept, p => OkInWindow(cutoff, p)) }

  /** Availability is the fraction of good probes and the failure rate the rest of it. */
  ghost predicate RatesMatch(kept: seq<Probe>, cutoff: int, availability: real, failureRate: real) {
    var total, okc := Total(kept, cutoff), OkCount(kept, cutoff);
    total > 0 ==>
      okc <= total && IsShare(availability, okc, total) && IsShare(failureRate, total - okc, total)
      && availability + failureRate == 1.0
  }

  predicate IsShare(x: real, part: nat, whole: nat) { x * whole as real == part as real }

  /** So availability is one exactly if no probe in the window failed, and zero exactly if none
      succeeded. */
  lemma AvailabilityMeaning(kept: seq<Probe>, cutoff: int, availability: real, failureRate: real)
    requires RatesMatch(kept, cutoff, availability, failureRate)
    requires exists i :: 0 <= i < |kept| && kept[i].mono >= cutoff
    ensures availability == 1.0 <==> forall i | 0 <= i < |kept| && kept[i].mono >= cutoff :: kept[i].ok
    ensures availability == 0.0 <==> forall i | 0 <= i < |kept| && kept[i].mono >= cutoff :: !kept[i].ok
  {
    AllOrNone(kept, cutoff);
    ShareEdges(availability, Total(kept, cutoff) as real, OkCount(kept, cutoff) as real);
  }

  lemma AllOrNone(kept: seq<Probe>, cutoff: int)
    requires exists i :: 0 <= i < |kept| && kept[i].mono >= cutoff
    ensures Total(kept, cutoff) > 0
    ensures OkCount(kept, cutoff) == Total(kept, cutoff) <==>
              forall i | 0 <= i < |kept| && kept[i].mono >= cutoff :: kept[i].ok
    ensures OkCount(kept, cutoff) == 0 <==> forall i | 0 <= i < |kept| && kept[i].mono >= cutoff :: !kept[i].ok
  {
    CountBound(kept, p => InWindow(cutoff, p));
    CountBound(kept, p => OkInWindow(cutoff, p));
    CountBound(kept, p => BadInWindow(cutoff, p));
    BadOnes(kept, cutoff);
  }

  lemma ShareEdges(z: real, t: real, n: real)
    requires t > 0.0 && z * t == n
    ensures z == 1.0 <==> n == t
    ensures z == 0.0 <==> n == 0.0
  {
    Cancel(z, t);
    Cancel(z + 1.0, t);
    assert (z + 1.0) * t == n + t;
  }

  predicate BadInWindow(cutoff: int, p: Probe) { p.mono >= cutoff && !p.ok }

  lemma {:induction false} BadOnes(kept: seq<Probe>, cutoff: int)
    ensures Total(kept, cutoff) == OkCount(kept, cutoff) + Count(kept, p => BadInWindow(cutoff, p))
  {
    if kept != [] { BadOnes(kept[..|kept| - 1], cutoff); }
  }

  /** Both percentiles are read off one sorted list of the good probes' latencies. */
  ghost predicate LatenciesMatch(kept: seq<Probe>, cutoff: int, p50: real, p95: real) {
    OkCount(kept, cutoff) > 0 ==>
      exists s :: IsSortOf(s, OkLatencies(kept, cutoff)) && p50 == Percentile(s, 50.0) && p95 == Percentile(s, 95.0)
  }

  ghost predicate IsSortOf(s: seq<real>, lats: seq<real>) {
    Sorting.Sorted(s, LeReal) && multiset(s) == multiset(lats)
  }

  // ------------------------------------------------------------------------------------------

  class DeviceHistory {
    const probes: Ring.RingBuffer<Probe>
    const windowNs: int
    var consecutiveFailures: nat
    var availability: real
    var failureRate: real
    var p50: real
    var p95: real

    ghost predicate Valid()
      reads this, probes, probes.buf
    {
      && probes.Valid()
      && consecutiveFailures == FailureRun(probes.pushed)
      && p50 <= p95
    }

    constructor (probeCap: nat, windowNs: int)
      requires probeCap > 0
      ensures Valid() && fresh(probes) && fresh(probes.buf) && probes.pushed == []
    {
      probes := new Ring.RingBuffer<Probe>(probeCap);
      this.windowNs := windowNs;
      consecutiveFailures, availability, failureRate, p50, p95 := 0, 0.0, 0.0, 0.0, 0.0;
    }

    /** Records a probe and recomputes the figures over what is left in ring and window. */
    method RecordProbe(ok: bool, latency: real, mono: int)
      requires Valid()
      modifies this, probes, probes.buf
      ensures Valid() && probes.pushed == old(probes.pushed) + [Probe(mono, ok, latency)]
      ensures RatesMatch(LastN(probes.pushed, probes.buf.Length), mono - windowNs, availability, failureRate)
      ensures LatenciesMatch(LastN(probes.pushed, probes.buf.Length), mono - windowNs, p50, p95)
      ensures OkCount(LastN(probes.pushed, probes.buf.Length), mono - windowNs) == 0 ==>
                p50 == old(p50) && p95 == old(p95)
      ensures windowNs >= 0 ==> Total(LastN(probes.pushed, probes.buf.Length), mono - windowNs) > 0
    {
      Note(Probe(mono, ok, latency));
      NewestCounts(probes.pushed, probes.buf.Length, mono - windowNs);
      RecomputeWindow(mono);
    }

    method Note(p: Probe)
      requires Valid()
      modifies this`consecutiveFailures, probes, probes.buf
      ensures Valid() && probes.pushed == old(probes.pushed) + [p]
    {
      probes.Push(p);
      assert probes.pushed[..|probes.pushed| - 1] == old(probes.pushed);
      if p.ok {
        consecutiveFailures := 0;
      } else {
        consecutiveFailures := consecutiveFailures + 1;
      }
    }

    method RecomputeWindow(now: int)
      requires probes.Valid() && p50 <= p95
      modifies this`availability, this`failureRate, this`p50, this`p95
      ensures p50 <= p95
      ensures RatesMatch(LastN(probes.pushed, probes.buf.Length), now - windowNs, availability, failureRate)
      ensures LatenciesMatch(LastN(probes.pushed, probes.buf.Length), now - windowNs, p50, p95)
      ensures OkCount(LastN(probes.pushed, probes.buf.Length), now - windowNs) == 0 ==>
                p50 == old(p50) && p95 == old(p95)
    {
      var items := probes.Items();
      availability, failureRate := WindowRates(items, now - windowNs, availability, failureRate);
      p50, p95 := WindowLatencies(items, now - windowNs, p50, p95);
    }
  }

  /** The rates over the window; over an empty one, those on record. */
  method WindowRates(items: seq<Probe>, cutoff: int, a0: real, f0: real) returns (availability: real, failureRate: real)
    ensures RatesMatch(items, cutoff, availability, failureRate)
    ensures Total(items, cutoff) == 0 ==> availability == a0 && failureRate == f0
  {
    var total, okc, _ := CountWindow(items, cutoff);
    availability, failureRate := a0, f0;
    if total > 0 {
      availability, failureRate := Shares(okc, total);
    }
  }

  /** The percentiles over the window's good probes; without one, those on record. */
  method WindowLatencies(items: seq<Probe>, cutoff: int, m0: real, t0: real) returns (p50: real, p95: real)
    requires m0 <= t0
    ensures p50 <= p95 && LatenciesMatch(items, cutoff, p50, p95)
    ensures OkCount(items, cutoff) == 0 ==> p50 == m0 && p95 == t0
  {
    var _, okc, lats := CountWindow(items, cutoff);
    p50, p95 := m0, t0;
    if |lats| > 0 {
      p50, p95 := MedianAndTail(lats);
    }
  }

  method Shares(okc: nat, total: nat) returns (good: real, bad: real)
    requires okc <= total && total > 0
    ensures IsShare(good, okc, total) && IsShare(bad, total - okc, total) && good + bad == 1.0
  {
    good := Ratio(okc, total);
    bad := Ratio(total - okc, total);
    RatiosSumToOne(okc, total);
  }

  method MedianAndTail(lats: seq<real>) returns (p50: real, p95: real)
    requires lats != []
    ensures p50 <= p95
    ensures exists s :: IsSortOf(s, lats) && p50 == Percentile(s, 50.0) && p95 == Percentile(s, 95.0)
  {
    var sorted := Sorting.SortSlice(lats, LeReal);
    assert |multiset(sorted)| == |multiset(lats)|;
    PercentileMonotone(sorted, 50.0, 95.0);
    p50 := Percentile(sorted, 50.0);
    p95 := Percentile(sorted, 95.0);
    assert IsSortOf(sorted, lats);
  }

  /** One pass over the retained probes. */
  method CountWindow(items: seq<Probe>, cutoff: int) returns (total: nat, okc: nat, lats: seq<real>)
    ensures total == Total(items, cutoff)
    ensures okc == OkCount(items, cutoff) == |lats| <= total
    ensures lats == OkLatencies(items, cutoff)
  {
    ghost var inWindow, okIn := p => InWindow(cutoff, p), p => OkInWindow(cutoff, p);
    total, okc, lats := 0, 0, [];
    for i := 0 to |items|
      invariant total == Count(items[..i], inWindow)
      invariant okc == Count(items[..i], okIn) == |lats| <= total
      invariant lats == OkLatencies(items[..i], cutoff)
    {
      assert items[..i + 1][..i] == items[..i];
      if items[i].mono >= cutoff {
        total := total + 1;
        if items[i].ok {
          okc := okc + 1;
          lats := lats + [items[i].latency];
        }
      }
    }
    assert items[..|items|] == items;
  }

  /** The probe just recorded is inside any window that does not look ahead. */
  lemma NewestCounts(pushed: seq<Probe>, cap: nat, cutoff: int)
    requires pushed != [] && cap > 0
    ensures pushed[|pushed| - 1].mono >= cutoff ==> Total(LastN(pushed, cap), cutoff) > 0
  {
    CountBound(LastN(pushed, cap), p => InWindow(cutoff, p));
    assert LastN(pushed, cap)[|LastN(pushed, cap)| - 1] == pushed[|pushed| - 1];
  }
}
