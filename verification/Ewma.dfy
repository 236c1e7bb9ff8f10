/** The exponentially weighted moving average of a test's run times. */
module Ewma {

  /** Weight of the newest observation. */
  const ALPHA := 0.3

  /** A `Test` entity. Despite its name, `totalRunTime` is the moving average. */
  datatype TestStats = TestStats(totalRunTime: real, totalRuns: int)

  const FRESH := TestStats(0.0, 0)

  /** What `record` does to an entity. */
  function Observe(t: TestStats, runtime: real): TestStats {
    TestStats(t.totalRunTime * (1.0 - ALPHA) + runtime * ALPHA, t.totalRuns + 1)
  }

  /** In numbers: 0.7 of the old average and 0.3 of the new run time, and one more run. */
  lemma ObserveInNumbers(t: TestStats, runtime: real)
    ensures Observe(t, runtime) == TestStats(0.7 * t.totalRunTime + 0.3 * runtime, t.totalRuns + 1)
    ensures Observe(FRESH, runtime) == TestStats(0.3 * runtime, 1)
  {
  }

  function ObserveAll(t: TestStats, runtimes: seq<real>): TestStats {
    if runtimes == [] then t
    else Observe(ObserveAll(t, runtimes[..|runtimes| - 1]), runtimes[|runtimes| - 1])
  }

  lemma ObserveAllSnoc(t: TestStats, runtimes: seq<real>, r: real)
    ensures ObserveAll(t, runtimes + [r]) == Observe(ObserveAll(t, runtimes), r)
  {
  }

  /** (1 - ALPHA) to the power n: what is left of a value after n observations. */
  function Decay(n: nat): real {
    if n == 0 then 1.0 else Decay(n - 1) * (1.0 - ALPHA)
  }

  /** The sum over k of ALPHA * (1 - ALPHA)^(n-1-k) * runtimes[k]. */
  function Weighted(runtimes: seq<real>): real {
    if runtimes == [] then 0.0
    else ALPHA * Decay(|runtimes| - 1) * runtimes[0] + Weighted(runtimes[1..])
  }

  lemma {:induction false} WeightedSnoc(runtimes: seq<real>, r: real)
    ensures Weighted(runtimes + [r]) == Weighted(runtimes) * (1.0 - ALPHA) + r * ALPHA
  {
    var s := runtimes + [r];
    if runtimes != [] {
      WeightedSnoc(runtimes[1..], r);
      assert s[1..] == runtimes[1..] + [r];
      assert Decay(|runtimes|) == Decay(|runtimes| - 1) * (1.0 - ALPHA);
      var d, x := Decay(|runtimes| - 1), runtimes[0];
      assert ALPHA * (d * (1.0 - ALPHA)) * x == (ALPHA * d * x) * (1.0 - ALPHA);
    } else {
      assert s[1..] == [];
    }
  }

  /** After n observations the entity counts n more runs, and its average is the decayed starting
      value plus the weighted sum of the observations. */
  lemma {:induction false} AverageIsWeighted(t: TestStats, runtimes: seq<real>)
    ensures ObserveAll(t, runtimes).totalRuns == t.totalRuns + |runtimes|
    ensures ObserveAll(t, runtimes).totalRunTime == Decay(|runtimes|) * t.totalRunTime + Weighted(runtimes)
  {
    if runtimes != [] {
      var n := |runtimes| - 1;
      AverageIsWeighted(t, runtimes[..n]);
      WeightedSnoc(runtimes[..n], runtimes[n]);
      assert runtimes == runtimes[..n] + [runtimes[n]];
      var d, x := Decay(n), t.totalRunTime;
      assert (d * x) * (1.0 - ALPHA) == (d * (1.0 - ALPHA)) * x;
    }
  }

  lemma FreshAverage(runtimes: seq<real>)
    ensures ObserveAll(FRESH, runtimes).totalRunTime == Weighted(runtimes)
  {
    AverageIsWeighted(FRESH, runtimes);
  }

  lemma {:induction false} DecayShrinks(n: nat)
    ensures 0.0 < Decay(n) <= 1.0
  {
    if n > 0 {
      DecayShrinks(n - 1);
    }
  }

  /** A fresh entity's average lies between the extremes of its observations, each shrunk by the
      weight that the initial zero still has. */
  lemma {:induction false} AverageIsBetween(runtimes: seq<real>, lo: real, hi: real)
    requires forall i :: 0 <= i < |runtimes| ==> lo <= runtimes[i] <= hi
    ensures (1.0 - Decay(|runtimes|)) * lo <= ObserveAll(FRESH, runtimes).totalRunTime
    ensures ObserveAll(FRESH, runtimes).totalRunTime <= (1.0 - Decay(|runtimes|)) * hi
  {
    if runtimes != [] {
      var n := |runtimes| - 1;
      AverageIsBetween(runtimes[..n], lo, hi);
      BetweenStep(Decay(n), lo);
      BetweenStep(Decay(n), hi);
    }
  }

  lemma BetweenStep(d: real, x: real)
    ensures (1.0 - d * (1.0 - ALPHA)) * x == ((1.0 - d) * x) * (1.0 - ALPHA) + x * ALPHA
  {
  }

  /** A test that always takes c is underestimated by exactly (1 - ALPHA)^n * c. */
  lemma ConstantError(runtimes: seq<real>, c: real)
    requires forall i :: 0 <= i < |runtimes| ==> runtimes[i] == c
    ensures c - ObserveAll(FRESH, runtimes).totalRunTime == Decay(|runtimes|) * c
  {
  }

  /** Two histories followed by the same n observations differ by what n observations leave of
      their difference. */
  lemma HistoryFades(t: TestStats, u: TestStats, runtimes: seq<real>)
    ensures ObserveAll(t, runtimes).totalRunTime - ObserveAll(u, runtimes).totalRunTime ==
            Decay(|runtimes|) * (t.totalRunTime - u.totalRunTime)
  {
    AverageIsWeighted(t, runtimes);
    AverageIsWeighted(u, runtimes);
    var d := Decay(|runtimes|);
    assert d * (t.totalRunTime - u.totalRunTime) == d * t.totalRunTime - d * u.totalRunTime;
  }

  lemma {:induction false} NonNegativeAverage(runtimes: seq<real>)
    requires forall i :: 0 <= i < |runtimes| ==> runtimes[i] >= 0.0
    ensures ObserveAll(FRESH, runtimes).totalRunTime >= 0.0
  {
    if runtimes != [] {
      NonNegativeAverage(runtimes[..|runtimes| - 1]);
    }
  }
}
