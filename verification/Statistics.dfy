/** The z-score test in exact arithmetic. Standard deviations appear only squared, so no root is taken. */
module Statistics {

  function Sum(xs: seq<real>): real {
    if xs == [] then 0.0 else Sum(xs[..|xs| - 1]) + xs[|xs| - 1]
  }

  function SumSquares(xs: seq<real>): real {
    if xs == [] then 0.0 else SumSquares(xs[..|xs| - 1]) + Square(xs[|xs| - 1])
  }

  function Square(x: real): real { x * x }

  /** The sum of squared deviations from m. */
  function Deviation(xs: seq<real>, m: real): real {
    if xs == [] then 0.0 else Deviation(xs[..|xs| - 1], m) + Square(xs[|xs| - 1] - m)
  }

  /** The outcome of an evaluation. The z-score and the standard deviation appear squared; the z-score has the sign of
      `deviation`, which is its numerator. */
  datatype Verdict = Verdict(isAnomaly: bool, zSquared: real, deviation: real, mean: real, variance: real) {
    predicate Critical() { isAnomaly && zSquared > 16.0 }
  }

  function Mean(xs: seq<real>): real
    requires |xs| > 0
  {
    Sum(xs) / |xs| as real
  }

  /** `np.std(values, ddof=1)` squared. */
  function Variance(xs: seq<real>): real
    requires |xs| > 1
  {
    Deviation(xs, Mean(xs)) / (|xs| - 1) as real
  }

  /** The second half of `record_and_evaluate`: at least ten samples, a standard deviation of at least 1e-6,
      and |z| > 3. */
  function Evaluate(xs: seq<real>, v: real): Verdict {
    if |xs| < 10 then Verdict(false, 0.0, 0.0, v, 0.0)
    else
      var mean, variance := Mean(xs), Variance(xs);
      if variance < 0.000_000_000_001 then Verdict(false, 0.0, 0.0, mean, 0.0)
      else
        var zSquared := Square(v - mean) / variance;
        Verdict(zSquared > 9.0, zSquared, v - mean, mean, variance)
  }

  // ----- Samuelson's inequality

  /** The sum of squared deviations from m of n samples with sum s and sum of squares q. */
  function Expanded(n: real, s: real, q: real, m: real): real { q - 2.0 * m * s + n * m * m }

  lemma {:induction false} DeviationExpands(xs: seq<real>, m: real)
    ensures Deviation(xs, m) == Expanded(|xs| as real, Sum(xs), SumSquares(xs), m)
  {
    if xs != [] {
      hide Expanded, Square;
      var init, x := xs[..|xs| - 1], xs[|xs| - 1];
      DeviationExpands(init, m);
      DeviationStep(|init| as real, Sum(init), SumSquares(init), x, m);
      assert |xs| as real == |init| as real + 1.0;
    }
  }

  lemma DeviationStep(n: real, s: real, q: real, x: real, m: real)
    ensures Expanded(n, s, q, m) + Square(x - m) == Expanded(n + 1.0, s + x, q + Square(x), m)
  {
  }

  /** A product whose factors the solver need not look into. */
  function Times(x: real, y: real): real { x * y }

  /** (Sum x)^2 <= n * Sum x^2. */
  lemma {:induction false} CauchySchwarz(xs: seq<real>)
    ensures Square(Sum(xs)) <= Times(|xs| as real, SumSquares(xs))
  {
    if |xs| == 1 {
      assert xs[..0] == [];
    } else if |xs| > 1 {
      hide Times, Square;
      var init, x := xs[..|xs| - 1], xs[|xs| - 1];
      CauchySchwarz(init);
      CauchyStep(|init| as real, Sum(init), SumSquares(init), x);
      assert |xs| as real == |init| as real + 1.0;
    }
  }

  lemma CauchyIdentity(n: real, s: real, q: real, x: real)
    ensures n * ((n + 1.0) * (q + x * x) - (s + x) * (s + x)) == (n + 1.0) * (n * q - s * s) + (s - n * x) * (s - n * x)
  {
  }

  lemma NonNegativeFactor(n: real, d: real)
    requires n > 0.0 && n * d >= 0.0
    ensures d >= 0.0
  {
  }

  lemma NonNegativeProduct(a: real, b: real)
    requires a >= 0.0 && b >= 0.0
    ensures a * b >= 0.0
  {
  }

  lemma SquareNonNegative(x: real)
    ensures Square(x) >= 0.0
  {
  }

  lemma CauchyStep(n: real, s: real, q: real, x: real)
    requires n >= 1.0 && Square(s) <= Times(n, q)
    ensures Square(s + x) <= Times(n + 1.0, q + Square(x))
  {
    CauchyIdentity(n, s, q, x);
    NonNegativeProduct(n + 1.0, n * q - s * s);
    SquareNonNegative(s - n * x);
    NonNegativeFactor(n, (n + 1.0) * (q + x * x) - (s + x) * (s + x));
  }

  lemma {:induction false} SumsConcat(a: seq<real>, b: seq<real>)
    ensures Sum(a + b) == Sum(a) + Sum(b) && SumSquares(a + b) == SumSquares(a) + SumSquares(b)
    decreases |b|
  {
    if b == [] {
      assert a + b == a;
    } else {
      SumsConcat(a, b[..|b| - 1]);
      assert (a + b)[..|a + b| - 1] == a + b[..|b| - 1];
    }
  }

  lemma SumsWithout(xs: seq<real>, k: nat)
    requires k < |xs|
    ensures var rest := xs[..k] + xs[k + 1..];
      Sum(rest) == Sum(xs) - xs[k] && SumSquares(rest) == SumSquares(xs) - Square(xs[k])
  {
    SumsConcat(xs[..k], xs[k + 1..]);
    SumsConcat(xs[..k] + [xs[k]], xs[k + 1..]);
    assert xs[..k] + [xs[k]] + xs[k + 1..] == xs;
    assert (xs[..k] + [xs[k]])[..k] == xs[..k];
  }

  /** n^2 times the squared distance of v from the mean of n samples with sum s. */
  function ScaledOffset(n: real, v: real, s: real): real { Square(n * v - s) }

  /** n^2 (n - 1) times the sum of squared deviations, over n, from the two sums. */
  function ScaledSpread(n: real, s: real, q: real): real { (n - 1.0) * (n * q - Square(s)) }

  lemma SamuelsonIdentity(n: real, t: real, r: real, v: real)
    ensures ScaledSpread(n, t + v, r + Square(v)) - ScaledOffset(n, v, t + v) == n * ((n - 1.0) * r - Square(t))
  {
    assert (n - 1.0) * (n * (r + v * v) - (t + v) * (t + v)) - (n * v - (t + v)) * (n * v - (t + v))
        == n * ((n - 1.0) * r - t * t);
  }

  lemma SamuelsonScalar(n: real, t: real, r: real, v: real)
    requires n > 0.0 && Square(t) <= Times(n - 1.0, r)
    ensures ScaledOffset(n, v, t + v) <= ScaledSpread(n, t + v, r + Square(v))
  {
    hide ScaledOffset, ScaledSpread, Square;
    SamuelsonIdentity(n, t, r, v);
    NonNegativeProduct(n, (n - 1.0) * r - Square(t));
  }

  /** No sample lies far from the mean of a set it belongs to: (n*v - S)^2 <= (n - 1)(n*Q - S^2). */
  lemma Samuelson(xs: seq<real>, v: real)
    requires v in xs
    ensures ScaledOffset(|xs| as real, v, Sum(xs)) <= ScaledSpread(|xs| as real, Sum(xs), SumSquares(xs))
  {
    hide Sum, SumSquares, Square, ScaledOffset, ScaledSpread, Times;
    var k :| 0 <= k < |xs| && xs[k] == v;
    var rest := xs[..k] + xs[k + 1..];
    SumsWithout(xs, k);
    CauchySchwarz(rest);
    assert |rest| as real == |xs| as real - 1.0;
    SamuelsonScalar(|xs| as real, Sum(rest), SumSquares(rest), v);
    assert Sum(rest) + v == Sum(xs) && SumSquares(rest) + Square(v) == SumSquares(xs);
  }

  /** The variance numpy computes from deviations is the one given by the two sums. */
  lemma VarianceFromSums(xs: seq<real>)
    requires |xs| > 1
    ensures var n := |xs| as real;
      n * (n - 1.0) * Variance(xs) == n * SumSquares(xs) - Square(Sum(xs))
  {
    hide Sum, SumSquares, Square, Deviation, Expanded;
    DeviationExpands(xs, Mean(xs));
    VarianceScalar(|xs| as real, Sum(xs), SumSquares(xs), Mean(xs), Deviation(xs, Mean(xs)));
  }

  lemma VarianceScalar(n: real, s: real, q: real, m: real, d: real)
    requires n > 1.0 && m == s / n && d == Expanded(n, s, q, m)
    ensures n * (n - 1.0) * (d / (n - 1.0)) == n * q - Square(s)
  {
    assert n * m == s;
    MeanIdentity(n, s, q, m);
    var variance := d / (n - 1.0);
    assert (n - 1.0) * variance == d;
    assert n * (n - 1.0) * variance == n * ((n - 1.0) * variance);
  }

  lemma MeanIdentity(n: real, s: real, q: real, m: real)
    requires n * m == s
    ensures n * (q - 2.0 * m * s + n * m * m) == n * q - s * s
  {
    assert n * m * m == s * m;
    assert n * (q - 2.0 * m * s + s * m) == n * q - (n * m) * s;
  }

  /** n * z^2 <= (n - 1)^2 whenever the tested value is one of the n samples. */
  lemma ZScoreBound(xs: seq<real>, v: real)
    requires v in xs && |xs| >= 10
    ensures |xs| as real * Evaluate(xs, v).zSquared <= Square(|xs| as real - 1.0)
  {
    hide Sum, SumSquares, Square, Deviation, Variance, Mean, ScaledOffset, ScaledSpread;
    var verdict := Evaluate(xs, v);
    SquareNonNegative(|xs| as real - 1.0);
    if verdict.zSquared != 0.0 {
      Samuelson(xs, v);
      VarianceFromSums(xs);
      MeanTimesCount(xs);
      ScoreFromSums(|xs| as real, v, Mean(xs), Sum(xs), SumSquares(xs), Variance(xs), verdict.zSquared);
    }
  }

  lemma MeanTimesCount(xs: seq<real>)
    requires |xs| > 0
    ensures |xs| as real * Mean(xs) == Sum(xs)
  {
  }

  lemma ScoreFromSums(n: real, v: real, m: real, s: real, q: real, variance: real, z2: real)
    requires n >= 10.0 && variance > 0.0 && n * m == s
    requires ScaledOffset(n, v, s) <= ScaledSpread(n, s, q)
    requires n * (n - 1.0) * variance == n * q - Square(s)
    requires z2 == Square(v - m) / variance
    ensures n * z2 <= Square(n - 1.0)
  {
    hide Square, ScaledOffset, ScaledSpread;
    OffsetFromMean(n, v, m, s);
    SpreadFromVariance(n, s, q, variance);
    CancelFactor(n, n * Square(v - m), Square(n - 1.0) * variance);
    ScoreTimesVariance(n, z2, variance, Square(v - m));
    CancelFactor(variance, n * z2, Square(n - 1.0));
  }

  lemma OffsetFromMean(n: real, v: real, m: real, s: real)
    requires n * m == s
    ensures ScaledOffset(n, v, s) == n * (n * Square(v - m))
  {
    assert n * v - s == n * (v - m);
  }

  lemma SpreadFromVariance(n: real, s: real, q: real, variance: real)
    requires n * (n - 1.0) * variance == n * q - Square(s)
    ensures ScaledSpread(n, s, q) == n * (Square(n - 1.0) * variance)
  {
    assert (n - 1.0) * (n * (n - 1.0) * variance) == n * (Square(n - 1.0) * variance);
  }

  lemma ScoreTimesVariance(n: real, z2: real, variance: real, d: real)
    requires variance > 0.0 && z2 == d / variance
    ensures variance * (n * z2) == n * d
  {
    assert variance * z2 == d;
  }

  lemma CancelFactor(k: real, a: real, b: real)
    requires k > 0.0 && k * a <= k * b
    ensures a <= b
  {
    assert k * (b - a) >= 0.0;
    NonNegativeFactor(k, b - a);
  }

  /** What the bound means for alerts: none with ten samples or fewer, no CRITICAL one below eighteen,
      and |z| <= 9.9 in a window of at most a hundred. */
  lemma AnomalyNeedsSamples(xs: seq<real>, v: real)
    requires v in xs
    ensures Evaluate(xs, v).isAnomaly ==> |xs| >= 11
    ensures Evaluate(xs, v).Critical() ==> |xs| >= 18
    ensures |xs| <= 100 ==> Evaluate(xs, v).zSquared <= 98.01
  {
    if |xs| >= 10 {
      ZScoreBound(xs, v);
      var n, z2 := |xs| as real, Evaluate(xs, v).zSquared;
      if |xs| <= 100 { SmallWindow(|xs|, z2); }
    }
  }

  lemma SmallWindow(n: nat, z2: real)
    requires 10 <= n <= 100 && n as real * z2 <= Square(n as real - 1.0)
    ensures z2 > 9.0 ==> n >= 11
    ensures z2 > 16.0 ==> n >= 18
    ensures z2 <= 98.01
  {
    var x := n as real;
    if z2 > 98.01 {
      assert x * z2 > x * 98.01;
      NonNegativeProduct(100.0 - x, x - 0.01);
    }
    if z2 > 16.0 && n < 18 {
      NonNegativeProduct(17.0 - x, x - 1.0);
      NonNegativeProduct(x, z2 - 16.0);
    }
  }

  // ----- The bound is attained

  /** n - 1 equal samples and one outlier. */
  function Spike(n: nat): (xs: seq<real>)
    requires n >= 1
    ensures |xs| == n && xs[n - 1] == n as real
  {
    Zeros(n - 1) + [n as real]
  }

  function Zeros(k: nat): (xs: seq<real>)
    ensures |xs| == k && Sum(xs) == 0.0 && SumSquares(xs) == 0.0
  {
    if k == 0 then [] else
      var xs := Zeros(k - 1) + [0.0];
      assert xs[..k - 1] == Zeros(k - 1);
      xs
  }

  lemma SpikeScore(n: nat)
    requires n >= 10
    ensures Evaluate(Spike(n), n as real).variance == n as real
    ensures n as real * Evaluate(Spike(n), n as real).zSquared == Square(n as real - 1.0)
  {
    hide Sum, SumSquares, Deviation, Variance, Mean, Square;
    var xs, x := Spike(n), n as real;
    SpikeSums(n);
    VarianceFromSums(xs);
    MeanOfSpike(n);
    SpikeVariance(x, Variance(xs));
    SpikeRatio(x, Square(x - 1.0));
  }

  lemma SpikeRatio(x: real, d: real)
    requires x > 0.0
    ensures x * (d / x) == d
  {
  }

  lemma SpikeSums(n: nat)
    requires n >= 1
    ensures Sum(Spike(n)) == n as real && SumSquares(Spike(n)) == Square(n as real)
  {
    assert Spike(n)[..n - 1] == Zeros(n - 1);
  }

  lemma MeanOfSpike(n: nat)
    requires n >= 1
    ensures Mean(Spike(n)) == 1.0
  {
    hide Sum, SumSquares, Spike;
    SpikeSums(n);
    Ratio(n as real, n as real);
  }

  lemma Ratio(x: real, y: real)
    requires x > 0.0 && x == y
    ensures x / y == 1.0
  {
  }

  lemma SpikeVariance(x: real, variance: real)
    requires x >= 2.0 && x * (x - 1.0) * variance == x * Square(x) - Square(x)
    ensures variance == x
  {
    var k := x * (x - 1.0);
    assert k * variance == k * x;
    CancelFactor(k, variance, x);
    CancelFactor(k, x, variance);
  }

  /** Eleven samples are exactly what an anomaly takes, and eighteen what a CRITICAL one takes. */
  lemma SamplesForAnomaly(n: nat)
    ensures (exists xs: seq<real>, v :: |xs| == n && v in xs && Evaluate(xs, v).isAnomaly) <==> n >= 11
    ensures (exists xs: seq<real>, v :: |xs| == n && v in xs && Evaluate(xs, v).Critical()) <==> n >= 18
  {
    hide Evaluate;
    forall xs: seq<real>, v | |xs| == n && v in xs
      ensures Evaluate(xs, v).isAnomaly ==> n >= 11
      ensures Evaluate(xs, v).Critical() ==> n >= 18
    {
      AnomalyNeedsSamples(xs, v);
    }
    if n >= 11 {
      SpikeIsAnomalous(n);
      assert Spike(n)[n - 1] in Spike(n);
    }
  }

  lemma SpikeIsAnomalous(n: nat)
    requires n >= 11
    ensures Evaluate(Spike(n), n as real).isAnomaly
    ensures n >= 18 ==> Evaluate(Spike(n), n as real).Critical()
  {
    hide Sum, SumSquares, Deviation, Variance, Mean, Spike;
    SpikeScore(n);
    var x, z2 := n as real, Evaluate(Spike(n), n as real).zSquared;
    if z2 <= 9.0 {
      assert x * z2 <= x * 9.0;
      NonNegativeProduct(x - 11.0, x);
      assert false;
    }
    if n >= 18 && z2 <= 16.0 {
      assert x * z2 <= x * 16.0;
      NonNegativeProduct(x - 18.0, x);
      assert false;
    }
  }

  // ----- The verdict, from the two sums

  /** n (n - 1) times the variance of n samples. */
  function Spread(xs: seq<real>): real { |xs| as real * SumSquares(xs) - Square(Sum(xs)) }

  /** The standard deviation of n samples is at least 1e-6. */
  predicate Varied(n: real, spread: real) { spread >= 0.000_000_000_001 * (n * (n - 1.0)) }

  /** The distance to the mean, x / n, squared exceeds c variances. */
  predicate Exceeds(n: real, x: real, spread: real, c: real) { (n - 1.0) * (x * x) > c * (n * spread) }

  /** n times the distance of v from the mean of n samples. */
  function Offset(xs: seq<real>, v: real): real { |xs| as real * v - Sum(xs) }

  /** The verdict in terms of the number of samples, their sum and their sum of squares alone. With a standard
      deviation under 1e-6 nothing is flagged; otherwise a deviation of either sign is flagged exactly if it exceeds
      three standard deviations, and CRITICAL exactly if it exceeds four. */
  lemma VerdictExactly(xs: seq<real>, v: real)
    requires |xs| >= 10
    ensures var n, verdict := |xs| as real, Evaluate(xs, v);
      && (verdict.isAnomaly <==> Varied(n, Spread(xs)) && Exceeds(n, Offset(xs, v), Spread(xs), 9.0))
      && (verdict.Critical() <==> Varied(n, Spread(xs)) && Exceeds(n, Offset(xs, v), Spread(xs), 16.0))
      && n * verdict.mean == Sum(xs)
      && (Varied(n, Spread(xs)) ==>
            n * verdict.deviation == Offset(xs, v) && n * (n - 1.0) * verdict.variance == Spread(xs))
      && (!Varied(n, Spread(xs)) ==> verdict.zSquared == 0.0 && verdict.deviation == 0.0)
  {
    hide Sum, SumSquares, Deviation, Variance, Mean, Square, Varied, Exceeds;
    var n, variance, x := |xs| as real, Variance(xs), v - Mean(xs);
    VarianceFromSums(xs);
    MeanTimesCount(xs);
    FloorScales(n, variance, Spread(xs));
    assert n * x == Offset(xs, v);
    if variance >= 0.000_000_000_001 {
      ThresholdScales(n, x, variance, Spread(xs), Offset(xs, v), 9.0);
      ThresholdScales(n, x, variance, Spread(xs), Offset(xs, v), 16.0);
      LargerExceeds(n, Offset(xs, v), Spread(xs), variance);
    }
  }

  lemma LargerExceeds(n: real, x: real, spread: real, variance: real)
    requires n >= 10.0 && variance > 0.0 && n * (n - 1.0) * variance == spread
    ensures Exceeds(n, x, spread, 16.0) ==> Exceeds(n, x, spread, 9.0)
  {
    NonNegativeProduct(n * (n - 1.0), variance);
    NonNegativeProduct(n, spread);
  }

  lemma SquareIs(x: real)
    ensures Square(x) == x * x
  {
  }

  lemma Grows(k: real, x: real, y: real)
    requires k > 0.0
    ensures x < y <==> k * x < k * y
  {
  }

  lemma FloorScales(n: real, variance: real, d: real)
    requires n >= 10.0 && n * (n - 1.0) * variance == d
    ensures variance >= 0.000_000_000_001 <==> Varied(n, d)
  {
    var k := n * (n - 1.0);
    Grows(k, variance, 0.000_000_000_001);
    assert k * variance == d;
  }

  /** A squared deviation exceeds c variances exactly if it does so after scaling with n^2 (n - 1). */
  lemma ThresholdScales(n: real, x: real, variance: real, d: real, nx: real, c: real)
    requires n >= 10.0 && variance > 0.0 && n * (n - 1.0) * variance == d && n * x == nx
    ensures Square(x) / variance > c <==> Exceeds(n, nx, d, c)
  {
    SquareIs(x);
    var q := (x * x) / variance;
    assert q * variance == x * x;
    Grows(variance, c, q);
    ScaledUp(n, x, variance, d, nx, c);
  }

  lemma ScaledUp(n: real, x: real, variance: real, d: real, nx: real, c: real)
    requires n >= 10.0 && n * (n - 1.0) * variance == d && n * x == nx
    ensures c * variance < x * x <==> c * (n * d) < (n - 1.0) * (nx * nx)
  {
    var k := n * n * (n - 1.0);
    assert k > 0.0 by { NonNegativeProduct(n * n - 1.0, n - 2.0); }
    Grows(k, c * variance, x * x);
    assert k * (c * variance) == c * (n * d) by { LeftSide(n, variance, d, c); }
    assert k * (x * x) == (n - 1.0) * (nx * nx) by { RightSide(n, x, nx); }
  }

  lemma LeftSide(n: real, variance: real, d: real, c: real)
    requires n * (n - 1.0) * variance == d
    ensures n * n * (n - 1.0) * (c * variance) == c * (n * d)
  {
    assert n * n * (n - 1.0) * (c * variance) == c * (n * (n * (n - 1.0) * variance));
  }

  lemma RightSide(n: real, x: real, nx: real)
    requires n * x == nx
    ensures n * n * (n - 1.0) * (x * x) == (n - 1.0) * (nx * nx)
  {
    assert n * n * (n - 1.0) * (x * x) == (n - 1.0) * ((n * x) * (n * x));
  }

  /** Too few samples are no baseline: nothing is flagged, and the value itself stands for the mean. */
  lemma NoBaseline(xs: seq<real>, v: real)
    requires |xs| < 10
    ensures Evaluate(xs, v) == Verdict(false, 0.0, 0.0, v, 0.0)
  {
  }

  /** What the sums are: that of n equal values, and the share of each single one. */
  lemma {:induction false} SumOfEqual(xs: seq<real>, x: real)
    requires forall k :: 0 <= k < |xs| ==> xs[k] == x
    ensures Sum(xs) == |xs| as real * x && SumSquares(xs) == |xs| as real * (x * x)
  {
    if xs != [] {
      SumOfEqual(xs[..|xs| - 1], x);
      assert |xs| as real == (|xs| - 1) as real + 1.0;
      OneMoreFactor((|xs| - 1) as real, x);
      OneMoreFactor((|xs| - 1) as real, x * x);
      SquareIs(x);
    }
  }

  lemma OneMoreFactor(n: real, x: real)
    ensures (n + 1.0) * x == n * x + x
  {
  }
}
